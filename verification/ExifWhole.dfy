// The whole way: what the offset pass leaves is what the reader wants to find.
module ExifWhole {
  import opened Bytes
  import opened ExifLayout
  import opened ExifModel
  import opened ExifKept
  import opened ExifPass
  import opened ExifRead
  import opened StableSort
  import opened Wrappers

  // A pointer whose directory is missing is missing too, or zero.
  predicate NoStray(s: seq<Ifd>, nr: nat, h: Place) {
    !Has(s, nr) ==> !HasTag(s, h.nr, h.id) || (IsPointer(s, h.nr, h.id) && LongAt(s, h.nr, h.id) == 0)
  }

  // What an image must meet when the pass begins.
  predicate Fit(s: seq<Ifd>) {
    && Ready(s) && AllWritable(s) && KnownTags(s) && (forall k | 0 <= k < |s| :: s[k].nr <= INTER_IFD)
    && NoStray(s, EXIF_IFD, Place(IFD0, TAG_EXIF_IFD)) && NoStray(s, GPS_IFD, Place(IFD0, TAG_GPS_IFD))
    && NoStray(s, INTER_IFD, Place(EXIF_IFD, TAG_INTER_IFD))
  }

  // ---------------------------------------------------------------- tags stay writable

  predicate GoodTag(t: Tag) {
    WritableTag(t) && (IsFar(t) ==> Known(t.typ))
  }

  predicate GoodTags(ds: seq<Ifd>) {
    forall k, i | 0 <= k < |ds| && 0 <= i < |ds[k].tags| :: GoodTag(ds[k].tags[i])
  }

  predicate FewTags(ds: seq<Ifd>) {
    forall k | 0 <= k < |ds| :: |ds[k].tags| < 65536
  }

  lemma GoodIsWritable(ds: seq<Ifd>)
    ensures AllWritable(ds) && KnownTags(ds) <==> GoodTags(ds) && FewTags(ds)
  {
    if AllWritable(ds) && KnownTags(ds) {
      forall k, i | 0 <= k < |ds| && 0 <= i < |ds[k].tags| ensures GoodTag(ds[k].tags[i]) {
        assert Writable(ds[k].tags);
      }
    }
  }

  lemma SameGood(a: seq<Ifd>, b: seq<Ifd>)
    requires SameShape(a, b) && GoodTags(a) && FewTags(a)
    ensures GoodTags(b) && FewTags(b)
  {
    forall k, i | 0 <= k < |b| && 0 <= i < |b[k].tags| ensures GoodTag(b[k].tags[i]) {
      assert SameTag(a[k].tags[i], b[k].tags[i]) && GoodTag(a[k].tags[i]);
    }
  }

  lemma SortedGood(ds: seq<Ifd>)
    requires GoodTags(ds) && FewTags(ds)
    ensures GoodTags(SortedTags(ds)) && FewTags(SortedTags(ds))
  {
    var r := SortedTags(ds);
    forall k, i | 0 <= k < |r| && 0 <= i < |r[k].tags| ensures GoodTag(r[k].tags[i]) {
      assert r[k].tags[i] in multiset(r[k].tags);
      assert r[k].tags[i] in ds[k].tags;
    }
  }

  // ---------------------------------------------------------------- pointers to nothing stay so

  lemma PassKeepsStray(s: seq<Ifd>, p: Passed, t: seq<Ifd>, nr: nat, h: Place)
    requires Ready(s) && p == Pass(s, 0, |s|, 8) && t == WithThumbnail(p) && Home(nr) == Some(h) && !Has(s, nr) && NoStray(s, nr, h)
    ensures !HasTag(t, h.nr, h.id) || (IsPointer(t, h.nr, h.id) && LongAt(t, h.nr, h.id) == 0)
  {
    PassSettles(s, p);
    ThumbnailStored(s, p.ds, p.len, t);
    SameHasTag(s, t, h.nr, h.id);
    if HasTag(s, h.nr, h.id) {
      NobodysHome(s, nr, h);
      PassKeeps(s, 0, 8, h.nr, h.id);
      ThumbnailKeeps(s, p.ds, p.len, t, h);
    }
  }

  lemma NobodysHome(s: seq<Ifd>, nr: nat, h: Place)
    requires Home(nr) == Some(h) && !Has(s, nr)
    ensures Unrelated(s, 0, h.nr, h.id)
  {
  }

  lemma SortedHasTag(t: seq<Ifd>, nr: nat, id: nat)
    requires AllDistinct(t)
    ensures HasTag(SortedTags(t), nr, id) <==> HasTag(t, nr, id)
  {
    SortedIfdIndex(t, nr);
    var k := IfdIndex(t, nr);
    if k < |t| {
      TagPermuted(t[k].tags, SortBy(t[k].tags, ById), id);
    }
  }

  lemma StrayLeadsNowhere(s: seq<Ifd>, p: Passed, r: seq<Ifd>, nr: nat, h: Place)
    requires Ready(s) && p == Pass(s, 0, |s|, 8) && r == SortedTags(WithThumbnail(p))
    requires Home(nr) == Some(h) && !Has(s, nr) && NoStray(s, nr, h)
    ensures Has(r, h.nr) ==> LeadsNowhere(r[IfdIndex(r, h.nr)].tags, h.id)
  {
    var t := WithThumbnail(p);
    PassKeepsStray(s, p, t, nr, h);
    PassSettles(s, p);
    ThumbnailStored(s, p.ds, p.len, t);
    SameDistinct(s, t);
    SortedHasTag(t, h.nr, h.id);
    SortedPointer(t, h.nr, h.id);
  }

  // ---------------------------------------------------------------- the order of directories

  // A directory of that number with at least one tag.
  ghost predicate Holds(ds: seq<Ifd>, nr: nat) {
    exists k :: 0 <= k < |ds| && ds[k].nr == nr && ds[k].tags != []
  }

  lemma PutHolds(ds: seq<Ifd>, nr: nat, id: nat, v: int, nr': nat)
    ensures Holds(WithLong(ds, nr, id, v), nr)
    ensures Holds(ds, nr') ==> Holds(WithLong(ds, nr, id, v), nr')
  {
    var r := WithLong(ds, nr, id, v);
    assert r[IfdIndex(ds, nr)].nr == nr && r[IfdIndex(ds, nr)].tags != [];
    if Holds(ds, nr') {
      var k :| 0 <= k < |ds| && ds[k].nr == nr' && ds[k].tags != [];
      assert r[k].nr == nr' && r[k].tags != [];
    }
  }

  lemma StartedHolds(ds: seq<Ifd>)
    ensures Holds(Started(ds), IFD0)
  {
    var d1 := WithLong(ds, IFD0, TAG_GPS_IFD, 0);
    var d2 := WithLong(d1, GPS_IFD, TAG_GPS_VERSION, 2);
    PutHolds(ds, IFD0, TAG_GPS_IFD, 0, IFD0);
    PutHolds(d1, GPS_IFD, TAG_GPS_VERSION, 2, IFD0);
    var k :| 0 <= k < |d2| && d2[k].nr == IFD0 && d2[k].tags != [];
    assert d2[k] in multiset(d2);
    assert d2[k] in multiset(Started(ds));
  }

  lemma StartedAscends(ds: seq<Ifd>)
    requires var s := Started(ds); DistinctNrs(s) && forall k | 0 <= k < |s| :: s[k].nr <= INTER_IFD
    ensures var s := Started(ds); Ascending(s, 0) && s != [] && s[0].nr == IFD0 && s[0].tags != []
  {
    var s := Started(ds);
    StartedHolds(ds);
    OrdersAreOrders();
    SortSorts(WithLong(WithLong(ds, IFD0, TAG_GPS_IFD, 0), GPS_IFD, TAG_GPS_VERSION, 2), ByNr);
    forall i, j | 0 <= i < j < |s| ensures s[i].nr < s[j].nr {
      assert ByNr(s[i], s[j]);
    }
    var k :| 0 <= k < |s| && s[k].nr == IFD0 && s[k].tags != [];
    var first := s[0].nr;
    if k > 0 {
      assert false;
    }
  }

  // ---------------------------------------------------------------- the pass leaves a sound image

  lemma SameHas(a: seq<Ifd>, b: seq<Ifd>, nr: nat)
    requires SameShape(a, b)
    ensures IfdIndex(SortedTags(b), nr) == IfdIndex(a, nr)
  {
    SameIfdIndex(a, b, nr);
    SortedIfdIndex(b, nr);
  }

  // What sorting and storing leave as it was.
  lemma LaidOutShape(ds: seq<Ifd>)
    requires Fit(Started(ds))
    ensures AllWritable(LaidOut(ds)) && KnownTags(LaidOut(ds)) && |LaidOut(ds)| == |Started(ds)|
    ensures forall k | 0 <= k < |LaidOut(ds)| :: LaidOut(ds)[k].nr == Started(ds)[k].nr && |LaidOut(ds)[k].tags| == |Started(ds)[k].tags|
    ensures forall nr: nat :: IfdIndex(LaidOut(ds), nr) == IfdIndex(Started(ds), nr)
  {
    var s := Started(ds);
    var p := Pass(s, 0, |s|, 8);
    ShapeFrom(s, p, WithThumbnail(p));
  }

  lemma ShapeFrom(s: seq<Ifd>, p: Passed, t: seq<Ifd>)
    requires Fit(s) && p == Pass(s, 0, |s|, 8) && t == WithThumbnail(p)
    ensures var r := SortedTags(t);
      && AllWritable(r) && KnownTags(r) && |r| == |s|
      && (forall k | 0 <= k < |r| :: r[k].nr == s[k].nr && |r[k].tags| == |s[k].tags|)
      && (forall nr: nat :: IfdIndex(r, nr) == IfdIndex(s, nr))
  {
    PassSettles(s, p);
    ThumbnailStored(s, p.ds, p.len, t);
    SortedShape(s, t);
  }

  lemma SortedShape(s: seq<Ifd>, t: seq<Ifd>)
    requires SameShape(s, t) && AllWritable(s) && KnownTags(s)
    ensures var r := SortedTags(t);
      && AllWritable(r) && KnownTags(r) && |r| == |s|
      && (forall k | 0 <= k < |r| :: r[k].nr == s[k].nr && |r[k].tags| == |s[k].tags|)
      && (forall nr: nat :: IfdIndex(r, nr) == IfdIndex(s, nr))
  {
    GoodIsWritable(s);
    SameGood(s, t);
    SortedGood(t);
    GoodIsWritable(SortedTags(t));
    forall nr: nat ensures IfdIndex(SortedTags(t), nr) == IfdIndex(s, nr) {
      SameHas(s, t, nr);
    }
  }

  lemma LaidOutLeads(ds: seq<Ifd>, nr: nat, h: Place)
    requires Fit(Started(ds)) && Home(nr) == Some(h) && !Has(Started(ds), nr) && NoStray(Started(ds), nr, h)
    ensures var r := LaidOut(ds); Has(r, h.nr) ==> LeadsNowhere(r[IfdIndex(r, h.nr)].tags, h.id)
  {
    var s := Started(ds);
    var p := Pass(s, 0, |s|, 8);
    StrayLeadsNowhere(s, p, LaidOut(ds), nr, h);
  }

  // Pointers without their directories lead nowhere.
  ghost predicate NoneLeadAstray(r: seq<Ifd>) {
    && (!Has(r, EXIF_IFD) && Has(r, IFD0) ==> LeadsNowhere(r[IfdIndex(r, IFD0)].tags, TAG_EXIF_IFD))
    && (!Has(r, GPS_IFD) && Has(r, IFD0) ==> LeadsNowhere(r[IfdIndex(r, IFD0)].tags, TAG_GPS_IFD))
    && (!Has(r, INTER_IFD) && Has(r, EXIF_IFD) ==> LeadsNowhere(r[IfdIndex(r, EXIF_IFD)].tags, TAG_INTER_IFD))
  }

  lemma LaidOutLeadsRight(ds: seq<Ifd>)
    requires Fit(Started(ds))
    ensures NoneLeadAstray(LaidOut(ds))
  {
    var s, r := Started(ds), LaidOut(ds);
    LaidOutShape(ds);
    SameIndexes(s, r);
    if !Has(s, EXIF_IFD) { LaidOutLeads(ds, EXIF_IFD, Place(IFD0, TAG_EXIF_IFD)); }
    if !Has(s, GPS_IFD) { LaidOutLeads(ds, GPS_IFD, Place(IFD0, TAG_GPS_IFD)); }
    if !Has(s, INTER_IFD) { LaidOutLeads(ds, INTER_IFD, Place(EXIF_IFD, TAG_INTER_IFD)); }
  }

  lemma LaidOutIsSound(ds: seq<Ifd>)
    requires Fit(Started(ds))
    ensures Sound(LaidOut(ds))
  {
    LayoutPoints(ds);
    LaidOutShape(ds);
    LaidOutLeadsRight(ds);
    StartedAscends(ds);
    SoundFrom(Started(ds), LaidOut(ds));
  }

  lemma SoundFrom(s: seq<Ifd>, r: seq<Ifd>)
    requires Ascending(s, 0) && s != [] && s[0].nr == IFD0 && s[0].tags != []
    requires AllWritable(r) && KnownTags(r) && AllDistinct(r) && Points(r) && IfdStart(r, |r|) < 65536 && |r| == |s|
    requires NoneLeadAstray(r)
    requires forall k | 0 <= k < |r| :: r[k].nr == s[k].nr && |r[k].tags| == |s[k].tags|
    ensures Sound(r)
  {
    assert r[0].nr == s[0].nr && |r[0].tags| == |s[0].tags|;
    assert Ascending(r, 0);
    FirstIndex(r);
  }

  lemma SameIndexes(s: seq<Ifd>, r: seq<Ifd>)
    requires forall nr: nat :: IfdIndex(r, nr) == IfdIndex(s, nr)
    ensures IfdIndex(r, IFD0) == IfdIndex(s, IFD0) && IfdIndex(r, EXIF_IFD) == IfdIndex(s, EXIF_IFD)
    ensures IfdIndex(r, GPS_IFD) == IfdIndex(s, GPS_IFD) && IfdIndex(r, INTER_IFD) == IfdIndex(s, INTER_IFD)
  {
  }

  // What reading a written image should give: directories by number, tags by id, and every tag of the image
  // with its value, those that writing sets aside.
  ghost predicate Preserves(ds: seq<Ifd>, r: seq<Ifd>) {
    && SortedBy(r, ByNr) && (forall k | 0 <= k < |r| :: SortedBy(r[k].tags, ById))
    && forall n, t | Stands(ds, n, t) && !IsRewritten(n, t.id) :: Stands(r, n, t)
  }

  lemma LaidOutPreserves(ds: seq<Ifd>)
    requires Ready(Started(ds))
    ensures Preserves(ds, LaidOut(ds))
  {
    DirsInOrder(ds);
    LayoutPoints(ds);
    forall k | 0 <= k < |LaidOut(ds)| ensures SortedBy(LaidOut(ds)[k].tags, ById) {
      LaidOutKeeps(ds, k);
    }
    forall n, t | Stands(ds, n, t) && !IsRewritten(n, t.id) ensures Stands(LaidOut(ds), n, t) {
      TagsSurvive(ds, n, t);
    }
  }

  /** Lay out, write in either byte order, read, the order taken from the segment's first bytes: the directories come
      back as they were laid out, sorted by number and their tags by id, with every tag of the image and its value,
      the pointers and the version aside. All of it comes back exactly if the order is little-endian or there is
      nothing that the big-endian one loses. */
  lemma ExifRoundTrip(ds: seq<Ifd>, be: bool, thumb: seq<Byte>)
    requires Fit(Started(ds))
    ensures AllWritable(LaidOut(ds)) && ReadSegment(Segment(be, DirsOf(be, LaidOut(ds)), thumb)) == Some(CameBack(be, LaidOut(ds)))
    ensures CameBack(be, LaidOut(ds)) == LaidOut(ds) <==> !be || Symmetric(LaidOut(ds))
    ensures Preserves(ds, LaidOut(ds))
  {
    LaidOutIsSound(ds);
    SegmentReadsBack(be, LaidOut(ds), thumb);
    AllComesBack(be, LaidOut(ds));
    LaidOutPreserves(ds);
  }

  // Where the first directory's link to the next one stands.
  function LinkPlace(r: seq<Ifd>): nat {
    if r == [] then 0 else 8 + 2 + 12 * |r[0].tags|
  }

  // The position of a directory, 0 without one.
  function IfdPosition(r: seq<Ifd>, nr: nat): nat {
    if Has(r, nr) then IfdStart(r, IfdIndex(r, nr)) else 0
  }

  lemma LinkInDir(f: seq<Byte>, be: bool, d: Ifd, next: bool, pos: nat)
    requires Writable(d.tags) && At(f, 8, DirBytes(be, Dir(d.nr, PiecesOf(be, d.tags)), 8, next)) && pos == 8 + 2 + 12 * |d.tags|
    ensures At(f, pos, Put32(be, LinkOf(d, 8, next)))
  {
    var e := Dir(d.nr, PiecesOf(be, d.tags));
    var base, link := pos + 4, LinkOf(d, 8, next);
    RoomsAreRooms(be, d.tags);
    DirEnds(be, f, e, 8, next, base, link);
  }

  lemma LinkFound(r: seq<Ifd>, be: bool, thumb: seq<Byte>, next: bool)
    requires AllWritable(r) && KnownTags(r) && r != [] && next == HasNext(DirsOf(be, r), 0)
    ensures At(Segment(be, DirsOf(be, r), thumb), LinkPlace(r), Put32(be, LinkOf(r[0], 8, next)))
  {
    DirFound(r, be, thumb, 0, 8, next);
    LinkInDir(Segment(be, DirsOf(be, r), thumb), be, r[0], next, LinkPlace(r));
  }

  /** In either byte order, the first directory's link holds the position of IFD1, or 0 without one. */
  lemma LinkIsWritten(ds: seq<Ifd>, be: bool, thumb: seq<Byte>)
    requires Fit(Started(ds))
    ensures AllWritable(LaidOut(ds))
    ensures At(Segment(be, DirsOf(be, LaidOut(ds)), thumb), LinkPlace(LaidOut(ds)), Put32(be, IfdPosition(LaidOut(ds), IFD1)))
  {
    LaidOutIsSound(ds);
    SoundLink(LaidOut(ds), be, thumb);
  }

  lemma SoundLink(r: seq<Ifd>, be: bool, thumb: seq<Byte>)
    requires Sound(r)
    ensures At(Segment(be, DirsOf(be, r), thumb), LinkPlace(r), Put32(be, IfdPosition(r, IFD1)))
  {
    var next := HasNext(DirsOf(be, r), 0);
    LinkFound(r, be, thumb, next);
    LinkLeads(r, next);
  }

  /** The thumbnail lies where its pointer says, in either byte order. */
  lemma ThumbnailIsFound(ds: seq<Ifd>, be: bool, thumb: seq<Byte>)
    requires Fit(Started(ds)) && IsPointer(LaidOut(ds), IFD1, TAG_JPEG_OFFS)
    ensures AllWritable(LaidOut(ds))
    ensures At(Segment(be, DirsOf(be, LaidOut(ds)), thumb), LongAt(LaidOut(ds), IFD1, TAG_JPEG_OFFS), thumb)
  {
    LayoutPoints(ds);
    LaidOutShape(ds);
    ThumbnailFound(be, LaidOut(ds), thumb, LongAt(LaidOut(ds), IFD1, TAG_JPEG_OFFS));
  }

  lemma ThumbnailFound(be: bool, r: seq<Ifd>, thumb: seq<Byte>, at: nat)
    requires AllWritable(r) && KnownTags(r) && at == IfdStart(r, |r|) + 4
    ensures At(Segment(be, DirsOf(be, r), thumb), at, thumb)
  {
    KnownIsWritten(be, r);
    ThumbnailAt(be, DirsOf(be, r), thumb);
    StartsAreStarts(be, r, |r|);
  }

  lemma SameWord(s: seq<Byte>, v: int)
    requires |s| == 4 && U32(s) == v
    ensures s == Le32(v)
  {
    var a: int, b: int, c: int, d: int := s[0], s[1], s[2], s[3];
    assert v == a + 256 * b + 65536 * (c + 256 * d);
    assert v % 65536 == a + 256 * b && (v / 65536) % 65536 == c + 256 * d;
    assert (a + 256 * b) % 256 == a && (a + 256 * b) / 256 % 256 == b;
    assert (c + 256 * d) % 256 == c && (c + 256 * d) / 256 % 256 == d;
  }

  lemma DirFound(r: seq<Ifd>, be: bool, thumb: seq<Byte>, k: nat, at: nat, next: bool)
    requires AllWritable(r) && KnownTags(r) && k < |r| && at == IfdStart(r, k) && next == HasNext(DirsOf(be, r), k)
    ensures At(Segment(be, DirsOf(be, r), thumb), at, DirBytes(be, Dir(r[k].nr, PiecesOf(be, r[k].tags)), at, next))
  {
    KnownIsWritten(be, r);
    StartsAreStarts(be, r, k);
    DirAtStart(be, DirsOf(be, r), thumb, k);
  }

  // Where the four bytes of a tag's value stand in the file.
  function ValuePlace(r: seq<Ifd>, nr: nat, id: nat): nat {
    var k := IfdIndex(r, nr);
    if k < |r| then IfdStart(r, k) + 2 + 12 * TagIndex(r[k].tags, id) + 8 else 0
  }

  lemma PointerFound(r: seq<Ifd>, be: bool, thumb: seq<Byte>, h: Place)
    requires AllWritable(r) && KnownTags(r) && IsPointer(r, h.nr, h.id)
    ensures At(Segment(be, DirsOf(be, r), thumb), ValuePlace(r, h.nr, h.id), Put32(be, LongAt(r, h.nr, h.id)))
  {
    var k := IfdIndex(r, h.nr);
    var at, i, v := IfdStart(r, k), TagIndex(r[k].tags, h.id), LongAt(r, h.nr, h.id);
    var next := HasNext(DirsOf(be, r), k);
    DirFound(r, be, thumb, k, at, next);
    LongIsWritten(Segment(be, DirsOf(be, r), thumb), be, r[k], at, next, i, v);
  }

  /** Every directory's position stands in the entry of its pointer, in either byte order. */
  lemma PointerIsWritten(ds: seq<Ifd>, be: bool, thumb: seq<Byte>, m: nat, h: Place)
    requires Fit(Started(ds)) && m < |LaidOut(ds)| && Home(LaidOut(ds)[m].nr) == Some(h)
    ensures AllWritable(LaidOut(ds))
    ensures At(Segment(be, DirsOf(be, LaidOut(ds)), thumb), ValuePlace(LaidOut(ds), h.nr, h.id), Put32(be, IfdStart(LaidOut(ds), m)))
  {
    LayoutPoints(ds);
    LaidOutShape(ds);
    assert PointsAt(LaidOut(ds), m, h);
    PointerFound(LaidOut(ds), be, thumb, h);
  }

  /** And at that position the directory itself stands. */
  lemma DirectoryIsWritten(ds: seq<Ifd>, be: bool, thumb: seq<Byte>, m: nat)
    requires Fit(Started(ds)) && m < |LaidOut(ds)|
    ensures AllWritable(LaidOut(ds))
    ensures var r, at := LaidOut(ds), IfdStart(LaidOut(ds), m);
      At(Segment(be, DirsOf(be, r), thumb), at, DirBytes(be, Dir(r[m].nr, PiecesOf(be, r[m].tags)), at, HasNext(DirsOf(be, r), m)))
  {
    LaidOutShape(ds);
    DirFound(LaidOut(ds), be, thumb, m, IfdStart(LaidOut(ds), m), HasNext(DirsOf(be, LaidOut(ds)), m));
  }

  lemma LongIsWritten(f: seq<Byte>, be: bool, d: Ifd, at: nat, next: bool, i: nat, v: nat)
    requires Writable(d.tags) && i < |d.tags| && At(f, at, DirBytes(be, Dir(d.nr, PiecesOf(be, d.tags)), at, next))
    requires var t := d.tags[i]; t.size == 4 && |t.data| == 4 && LongType(t.typ) && U32(t.data) == v
    ensures At(f, at + 2 + 12 * i + 8, Put32(be, v))
  {
    var e := Dir(d.nr, PiecesOf(be, d.tags));
    var offs, pos := ValueOffset(at, e.tags, i), at + 2 + 12 * i;
    EntryIsAt(be, f, e, at, next, i, offs);
    LongEntry(be, d.tags[i], offs, v);
    AtSplit(f, pos, HeadOf(be, d.tags[i]), Put32(be, v));
  }

  lemma LongEntry(be: bool, t: Tag, offs: nat, v: nat)
    requires WellTyped(t) && t.size == 4 && |t.data| == 4 && LongType(t.typ) && U32(t.data) == v
    ensures Entry(be, PieceOf(be, t), offs) == HeadOf(be, t) + Put32(be, v)
  {
    SameWord(t.data, v);
  }
}
