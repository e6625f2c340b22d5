// The image being written: directories and tags are searched, filled and sorted in place, then emitted.
module ExifApp {
  import opened Bytes
  import opened ExifLayout
  import opened ExifModel
  import opened ExifPass
  import opened StableSort
  import opened OutStream
  import opened Sequences

  class App {
    var ifds: seq<Ifd>
    const bigEndian: bool

    constructor (ds: seq<Ifd>, be: bool)
      ensures ifds == ds && bigEndian == be
    {
      ifds := ds;
      bigEndian := be;
    }

    method FindIfd(nr: nat) returns (k: nat)
      ensures k == IfdIndex(ifds, nr)
    {
      k := 0;
      while k < |ifds| && ifds[k].nr != nr
        invariant k <= |ifds| && IfdIndex(ifds, nr) == k + IfdIndex(ifds[k..], nr)
      {
        assert ifds[k..][1..] == ifds[k + 1..];
        k := k + 1;
      }
    }

    /** Stores a long under a tag, which is created, with its directory, if it is not there. */
    method PutLong(nr: nat, id: nat, v: int)
      modifies this
      ensures ifds == WithLong(old(ifds), nr, id, v)
    {
      var k := FindIfd(nr);
      var added := Tag(id, TYPE_LONG, 1, 4, Le32(v));
      if k == |ifds| {
        assert WithLongTag([], id, v) == [added];
        ifds := ifds + [Ifd(nr, [added])];
      } else {
        var tags := ifds[k].tags;
        var i := FindTagIn(tags, id);
        if i == |tags| {
          tags := tags + [added];
        } else if tags[i].count < 1 {
          tags := tags[i := tags[i].(count := 1, size := 4, data := Le32(v))];
        } else {
          tags := tags[i := tags[i].(data := Le32(v) + if |tags[i].data| > 4 then tags[i].data[4..] else [])];
        }
        ifds := ifds[k := Ifd(nr, tags)];
      }
    }

    // The offset pass over all directories.
    method PointAll() returns (len: nat)
      modifies this
      ensures var p := Pass(old(ifds), 0, |old(ifds)|, 8); ifds == p.ds && len == p.len
    {
      len := 8;
      var k, n := 0, |ifds|;
      ghost var all := ifds;
      while k < n
        invariant k <= n <= |ifds|
        invariant Pass(all, 0, n, 8) == Pass(ifds, k, n, len)
      {
        ghost var ds := ifds;
        PointTo(k, len);
        var size := SizeOf(ifds[k]);
        OnePass(ds, k, n, len, ifds, (len + size) % 65536);
        len := (len + size) % 65536;
        k := k + 1;
      }
    }

    // The pointer to directory k, if its kind has one.
    method PointTo(k: nat, len: nat)
      requires k < |ifds|
      modifies this
      ensures ifds == Stored(old(ifds), k, len)
    {
      var nr := ifds[k].nr;
      if nr == GPS_IFD {
        PutLong(IFD0, TAG_GPS_IFD, len);
      } else if nr == EXIF_IFD {
        PutLong(IFD0, TAG_EXIF_IFD, len);
      } else if nr == INTER_IFD {
        PutLong(EXIF_IFD, TAG_INTER_IFD, len);
      }
    }

    /** Everything done to the directories before the first byte is written. */
    method LayOut()
      modifies this
      ensures ifds == LaidOut(old(ifds))
    {
      Begin();
      var len := PointAll();
      PointToThumbnail(len);
      SortAllTags();
    }

    method Begin()
      modifies this
      ensures ifds == Started(old(ifds))
    {
      PutLong(IFD0, TAG_GPS_IFD, 0);
      PutLong(GPS_IFD, TAG_GPS_VERSION, 2);
      ifds := SortBy(ifds, ByNr);
    }

    method PointToThumbnail(len: nat)
      modifies this
      ensures ifds == WithThumbnail(Passed(old(ifds), len))
    {
      var offs := (len + 4) % 65536;
      var k := FindIfd(IFD1);
      if k < |ifds| {
        var i := FindTagIn(ifds[k].tags, TAG_JPEG_OFFS);
        if i < |ifds[k].tags| {
          PutLong(IFD1, TAG_JPEG_OFFS, offs);
        }
      }
    }

    method SortAllTags()
      modifies this
      ensures ifds == SortedTags(old(ifds))
    {
      var k := 0;
      var all := ifds;
      while k < |all|
        invariant 0 <= k <= |all| == |ifds|
        invariant forall i | 0 <= i < k :: ifds[i] == Ifd(all[i].nr, SortBy(all[i].tags, ById))
        invariant forall i | k <= i < |all| :: ifds[i] == all[i]
      {
        ifds := ifds[k := Ifd(ifds[k].nr, SortBy(ifds[k].tags, ById))];
        k := k + 1;
      }
    }

    /** Writes the segment: the header, every directory where the stream stands, a zero word, the thumbnail. */
    method Write(thumb: seq<Byte>) returns (out: Sink)
      requires AllWritable(ifds)
      ensures fresh(out) && out.data == Segment(bigEndian, DirsOf(bigEndian, ifds), thumb)
    {
      ghost var dirs := DirsOf(bigEndian, ifds);
      out := new Sink();
      WriteHeader(bigEndian, out);
      WriteDirs(ifds, bigEndian, out, dirs);
      out.Put(Put32(bigEndian, 0));
      out.Put(thumb);
    }
  }

  method WriteDirs(ds: seq<Ifd>, be: bool, out: Sink, ghost dirs: seq<Dir>)
    requires AllWritable(ds) && dirs == DirsOf(be, ds) && out.data == Header(be)
    modifies out
    ensures out.data == Body(be, dirs, |dirs|)
  {
    var k := 0;
    while k < |ds|
      invariant 0 <= k <= |ds| && out.data == Body(be, dirs, k) && |out.data| % 2 == 0
    {
      var next := ds[k].nr == IFD0 && k + 1 < |ds| && ds[k + 1].nr == IFD1;
      WriteNext(ds, k, next, be, out, dirs);
      k := k + 1;
    }
  }

  method WriteHeader(be: bool, out: Sink)
    requires out.data == []
    modifies out
    ensures out.data == Header(be)
  {
    out.Put(if be then ['M' as int, 'M' as int] else ['I' as int, 'I' as int]);
    out.Put(Put16(be, 0x2A));
    out.Put(Put32(be, 8));
  }

  method WriteNext(ds: seq<Ifd>, k: nat, next: bool, be: bool, out: Sink, ghost dirs: seq<Dir>)
    requires AllWritable(ds) && k < |ds| && dirs == DirsOf(be, ds) && next == HasNext(dirs, k)
    requires out.data == Body(be, dirs, k) && |out.data| % 2 == 0
    modifies out
    ensures out.data == Body(be, dirs, k + 1) && |out.data| % 2 == 0
  {
    assert dirs[k] == Dir(ds[k].nr, PiecesOf(be, ds[k].tags));
    WriteIfd(ds[k], next, be, out);
  }

  method FindTagIn(tags: seq<Tag>, id: nat) returns (i: nat)
    ensures i == TagIndex(tags, id)
  {
    i := 0;
    while i < |tags| && tags[i].id != id
      invariant i <= |tags| && TagIndex(tags, id) == i + TagIndex(tags[i..], id)
    {
      assert tags[i..][1..] == tags[i + 1..];
      i := i + 1;
    }
  }

  method SizeOf(d: Ifd) returns (res: nat)
    ensures res == IfdSize(d)
  {
    res := 6 + 12 * |d.tags|;
    var i := 0;
    while i < |d.tags|
      invariant 0 <= i <= |d.tags| && res == 6 + 12 * |d.tags| + TagRooms(d.tags[..i])
    {
      assert d.tags[..i + 1][..i] == d.tags[..i];
      if d.tags[i].size > 4 {
        var size := d.tags[i].size;
        if size % 2 == 1 {
          size := size + 1;
        }
        res := res + size;
      }
      i := i + 1;
    }
    assert d.tags[..i] == d.tags;
  }

  // One directory: the entries with a running offset, the link, then the values themselves.
  method WriteIfd(d: Ifd, next: bool, be: bool, out: Sink)
    requires Writable(d.tags) && |out.data| % 2 == 0
    modifies out
    ensures out.data == old(out.data) + DirBytes(be, Dir(d.nr, PiecesOf(be, d.tags)), |old(out.data)|, next)
    ensures |out.data| % 2 == 0
  {
    ghost var start, pieces := out.data, PiecesOf(be, d.tags);
    out.Put(Put16(be, |d.tags|));
    var base := |out.data| + |d.tags| * 12 + 4;
    BaseIs(|start|, |d.tags|, base);
    var offs := WriteEntries(d, be, base, out);
    WriteLink(next, be, offs, out);
    LinkIsEven(start, be, pieces, base, next, offs, out.data);
    WriteValues(d, be, out);
    WholeDir(start, be, Dir(d.nr, pieces), base, next, offs, out.data);
  }

  method WriteLink(next: bool, be: bool, offs: nat, out: Sink)
    modifies out
    ensures out.data == old(out.data) + Put32(be, if next then offs else 0)
  {
    if next {
      out.Put(Put32(be, offs));
    } else {
      out.Put(Put32(be, 0));
    }
  }

  lemma BaseIs(at: nat, n: nat, base: nat)
    requires at % 2 == 0 && base == at + 2 + n * 12 + 4
    ensures base == Base(at, n) && base % 2 == 0
  {
  }

  lemma LinkIsEven(s: seq<Byte>, be: bool, tags: seq<Piece>, base: nat, next: bool, offs: nat, data: seq<Byte>)
    requires TagsOk(tags) && |s| % 2 == 0
    requires data == s + Put16(be, |tags|) + Entries(be, tags, base) + Put32(be, if next then offs else 0)
    ensures |data| % 2 == 0
  {
  }

  lemma WholeDir(s: seq<Byte>, be: bool, d: Dir, base: nat, next: bool, offs: nat, data: seq<Byte>)
    requires TagsOk(d.tags) && base == Base(|s|, |d.tags|) && offs == base + Rooms(d.tags)
    requires data == s + Put16(be, |d.tags|) + Entries(be, d.tags, base) + Put32(be, if next then offs else 0) + Payloads(d.tags)
    ensures data == s + DirBytes(be, d, |s|, next)
  {
    AssociateFour(s, Put16(be, |d.tags|), Entries(be, d.tags, base), Put32(be, if next then offs else 0), Payloads(d.tags));
  }

  // The entries of `done` stand behind `start`; the next out-of-line value goes to `offs`.
  ghost predicate Laid(data: seq<Byte>, start: seq<Byte>, be: bool, done: seq<Piece>, base: nat, offs: nat) {
    TagsOk(done) && offs == base + Rooms(done) && offs % 2 == 0 && data == start + Entries(be, done, base)
  }

  method WriteEntries(d: Ifd, be: bool, base: nat, out: Sink) returns (offs: nat)
    requires Writable(d.tags) && base % 2 == 0
    modifies out
    ensures var pieces := PiecesOf(be, d.tags);
      out.data == old(out.data) + Entries(be, pieces, base) && offs == base + Rooms(pieces)
  {
    ghost var start, pieces, done := out.data, PiecesOf(be, d.tags), [];
    offs := base;
    var i := 0;
    while i < |d.tags|
      invariant 0 <= i <= |d.tags| && done == pieces[..i] && Laid(out.data, start, be, done, base, offs)
    {
      offs := WriteEntry(d.tags[i], be, offs, out, start, done, base);
      OneMore(pieces, i, done);
      done := done + [pieces[i]];
      i := i + 1;
    }
    AllDone(pieces, done);
  }

  lemma OneMore(pieces: seq<Piece>, i: nat, done: seq<Piece>)
    requires i < |pieces| && done == pieces[..i]
    ensures done + [pieces[i]] == pieces[..i + 1]
  {
  }

  lemma AllDone(pieces: seq<Piece>, done: seq<Piece>)
    requires done == pieces[..|pieces|]
    ensures done == pieces
  {
  }

  method WriteEntry(t: Tag, be: bool, offs: nat, out: Sink, ghost start: seq<Byte>, ghost done: seq<Piece>, ghost base: nat) returns (offs': nat)
    requires WellTyped(t) && offs % 2 == 0 && Laid(out.data, start, be, done, base, offs)
    modifies out
    ensures Laid(out.data, start, be, done + [PieceOf(be, t)], base, offs')
  {
    ghost var p, before := PieceOf(be, t), out.data;
    offs' := EmitEntry(t, be, offs, out, p);
    EntriesGrow(be, done, p, base, start, before, offs, out.data, offs');
  }

  lemma EntriesGrow(be: bool, done: seq<Piece>, p: Piece, base: nat, start: seq<Byte>, data: seq<Byte>, offs: nat, data': seq<Byte>, offs': nat)
    requires Laid(data, start, be, done, base, offs) && PieceOk(p)
    requires data' == data + Entry(be, p, offs) && offs' == offs + Room(p)
    ensures Laid(data', start, be, done + [p], base, offs')
  {
    OnePieceMore(be, done, p, base);
    StaysEven(offs, p);
    var all, entries, entry := Entries(be, done + [p], base), Entries(be, done, base), Entry(be, p, offs);
    Associate(start, entries, entry);
    assert data' == start + all;
  }

  lemma OnePieceMore(be: bool, done: seq<Piece>, p: Piece, base: nat)
    requires TagsOk(done) && PieceOk(p)
    ensures TagsOk(done + [p]) && Rooms(done + [p]) == Rooms(done) + Room(p)
    ensures Entries(be, done + [p], base) == Entries(be, done, base) + Entry(be, p, base + Rooms(done))
  {
    assert (done + [p])[..|done|] == done;
  }

  lemma StaysEven(offs: nat, p: Piece)
    requires offs % 2 == 0
    ensures (offs + Room(p)) % 2 == 0
  {
  }

  method EmitEntry(t: Tag, be: bool, offs: nat, out: Sink, ghost p: Piece) returns (offs': nat)
    requires WellTyped(t) && offs % 2 == 0 && p == PieceOf(be, t)
    modifies out
    ensures out.data == old(out.data) + Entry(be, p, offs)
    ensures offs' == offs + Room(p)
  {
    ghost var before := out.data;
    EmitHead(t, be, out);
    offs' := offs;
    if t.size > 4 {
      offs' := Advance(offs, t.size);
      out.Put(Put32(be, offs));
      Associate(before, HeadOf(be, t), Put32(be, offs));
    } else {
      out.Put(Inline(be, t));
      Associate(before, HeadOf(be, t), Inline(be, t));
    }
  }

  method Advance(offs: nat, size: nat) returns (offs': nat)
    requires offs % 2 == 0
    ensures offs' == offs + Even(size)
  {
    offs' := offs + size;
    if offs' % 2 == 1 {
      offs' := offs' + 1;
    }
  }

  method EmitHead(t: Tag, be: bool, out: Sink)
    modifies out
    ensures out.data == old(out.data) + HeadOf(be, t)
  {
    ghost var before := out.data;
    out.Put(Put16(be, t.id));
    out.Put(Put16(be, t.typ));
    out.Put(Put32(be, t.count));
    AssociateFour(before, Put16(be, t.id), Put16(be, t.typ), Put32(be, t.count), []);
  }

  method WriteValues(d: Ifd, be: bool, out: Sink)
    requires Writable(d.tags) && |out.data| % 2 == 0
    modifies out
    ensures out.data == old(out.data) + Payloads(PiecesOf(be, d.tags)) && |out.data| % 2 == 0
  {
    ghost var start, pieces, done := out.data, PiecesOf(be, d.tags), [];
    var i := 0;
    while i < |d.tags|
      invariant 0 <= i <= |d.tags| && done == pieces[..i] && |out.data| % 2 == 0
      invariant out.data == start + Payloads(done)
    {
      WriteValue(d.tags[i], be, out, start, done);
      OneMore(pieces, i, done);
      done := done + [pieces[i]];
      i := i + 1;
    }
    AllDone(pieces, done);
  }

  // A value of a type that ends in the default branch leaves nothing here.
  method WriteValue(t: Tag, be: bool, out: Sink, ghost start: seq<Byte>, ghost done: seq<Piece>)
    requires WellTyped(t) && |out.data| % 2 == 0 && out.data == start + Payloads(done)
    modifies out
    ensures out.data == start + Payloads(done + [PieceOf(be, t)]) && |out.data| % 2 == 0
  {
    EmitValue(t, be, out);
    assert (done + [PieceOf(be, t)])[..|done|] == done;
    Associate(start, Payloads(done), Payload(PieceOf(be, t)));
  }

  method EmitValue(t: Tag, be: bool, out: Sink)
    requires WellTyped(t) && |out.data| % 2 == 0
    modifies out
    ensures out.data == old(out.data) + Payload(PieceOf(be, t)) && |out.data| % 2 == 0
  {
    PayloadIs(be, t);
    if t.size > 4 {
      EmitPadded(Emit(be, t), out);
    }
  }

  lemma PayloadIs(be: bool, t: Tag)
    requires WellTyped(t)
    ensures t.size > 4 ==> Payload(PieceOf(be, t)) == Emit(be, t) + Padding(|Emit(be, t)|)
    ensures t.size <= 4 ==> Payload(PieceOf(be, t)) == []
  {
  }

  method EmitPadded(value: seq<Byte>, out: Sink)
    requires |out.data| % 2 == 0
    modifies out
    ensures out.data == old(out.data) + (value + Padding(|value|)) && |out.data| % 2 == 0
  {
    ghost var before := out.data;
    out.Put(value);
    if |out.data| % 2 == 1 {
      out.Put([0]);
      Associate(before, value, [0]);
    }
  }
}
