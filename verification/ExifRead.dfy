// Reading a segment in the byte order its first bytes tell: the directories are found through their pointers,
// the values through the offsets in the entries.
module ExifRead {
  import opened Bytes
  import opened ExifLayout
  import opened ExifModel
  import opened ExifPass
  import opened Sequences
  import opened Wrappers

  // A tag as read, and the 32-bit value its entry held.
  datatype Read = Read(tag: Tag, value: nat)

  function Word(be: bool, f: seq<Byte>, pos: nat): Option<nat> {
    if pos + 2 <= |f| then Some(U16(Swap(be, f[pos..pos + 2]))) else None
  }

  function Long(be: bool, f: seq<Byte>, pos: nat): Option<nat> {
    if pos + 4 <= |f| then Some(U32(Swap(be, f[pos..pos + 4]))) else None
  }

  // An entry's last four bytes as the program stores them: up to four bytes as they are, anything else as one
  // 32-bit number.
  function StoredInline(be: bool, typ: nat, count: nat, raw: seq<Byte>): (r: seq<Byte>)
    ensures |r| == |raw|
  {
    if ByteType(typ) && count <= 4 then raw else Swap(be, raw)
  }

  // The four fields of an entry.
  function ReadHead(be: bool, f: seq<Byte>, pos: nat): Option<Read> {
    if pos + 12 > |f| then None
    else
      var id, typ, count := U16(Swap(be, f[pos..pos + 2])), U16(Swap(be, f[pos + 2..pos + 4])), U32(Swap(be, f[pos + 4..pos + 8]));
      var stored := StoredInline(be, typ, count, f[pos + 8..pos + 12]);
      if TypeSize(typ) == 0 then None else Some(Read(Tag(id, typ, count, TypeSize(typ) * count, stored), U32(stored)))
  }

  // The value, if it lies elsewhere.
  function Fetched(be: bool, f: seq<Byte>, r: Read): Option<Read> {
    var t := r.tag;
    if t.size > 4 && r.value != 0 then
      if Known(t.typ) && Countable(t.typ, t.count) && t.size == TypeSize(t.typ) * t.count && r.value + t.size <= |f| then
        Some(r.(tag := t.(data := Items(be, t.typ, t.count, f[r.value..r.value + t.size]))))
      else None
    else Some(r)
  }

  // One entry, and its value. Ends of file and types that the program gives up on or enters only in part are None.
  function ReadTag(be: bool, f: seq<Byte>, pos: nat): Option<Read> {
    if ReadHead(be, f, pos).None? then None else Fetched(be, f, ReadHead(be, f, pos).value)
  }

  // Entry by entry.
  function HeadAt(be: bool, f: seq<Byte>, pos: nat): nat -> Option<Read> {
    (i: nat) => ReadHead(be, f, pos + 12 * i)
  }

  function TagAt(be: bool, f: seq<Byte>, pos: nat): nat -> Option<Read> {
    (i: nat) => ReadTag(be, f, pos + 12 * i)
  }

  function ReadTags(be: bool, f: seq<Byte>, pos: nat, n: nat): Option<seq<Read>> {
    All(n, TagAt(be, f, pos))
  }

  datatype IfdRead = IfdRead(entries: seq<Read>, next: nat)

  // A directory without entries is left at once; the link to the next is read as 16 bits.
  function ReadIfd(be: bool, f: seq<Byte>, offs: nat): Option<IfdRead> {
    if Word(be, f, offs).None? then None
    else
      var n := Word(be, f, offs).value;
      if n == 0 then Some(IfdRead([], 0))
      else if ReadTags(be, f, offs + 2, n).None? || Word(be, f, offs + 2 + 12 * n).None? then None
      else Some(IfdRead(ReadTags(be, f, offs + 2, n).value, Word(be, f, offs + 2 + 12 * n).value))
  }

  // The value of the last entry with that id, 0 without one.
  function LastValue(rs: seq<Read>, id: nat): nat {
    if rs == [] then 0 else if rs[|rs| - 1].tag.id == id then rs[|rs| - 1].value else LastValue(rs[..|rs| - 1], id)
  }

  function TagsOf(rs: seq<Read>): (r: seq<Tag>)
    ensures |r| == |rs|
  {
    if rs == [] then [] else TagsOf(rs[..|rs| - 1]) + [rs[|rs| - 1].tag]
  }

  // The directory at an offset, as a list; none for offset 0.
  datatype Part = Part(ds: seq<Ifd>, entries: seq<Read>, next: nat)

  function ReadPart(be: bool, f: seq<Byte>, nr: nat, offs: nat): Option<Part> {
    if offs == 0 then Some(Part([], [], 0))
    else if ReadIfd(be, f, offs).None? then None
    else
      var r := ReadIfd(be, f, offs).value;
      Some(Part([Ifd(nr, TagsOf(r.entries))], r.entries, r.next))
  }

  // exif_read_app
  function ReadApp(be: bool, f: seq<Byte>): Option<seq<Ifd>> {
    if Long(be, f, 4).None? || ReadIfd(be, f, Long(be, f, 4).value).None? then None
    else
      var r := ReadIfd(be, f, Long(be, f, 4).value).value;
      var p1 := ReadPart(be, f, IFD1, r.next);
      var p2 := ReadPart(be, f, EXIF_IFD, LastValue(r.entries, TAG_EXIF_IFD));
      var p3 := ReadPart(be, f, GPS_IFD, LastValue(r.entries, TAG_GPS_IFD));
      if p1.None? || p2.None? || p3.None? then None
      else
        var p4 := ReadPart(be, f, INTER_IFD, LastValue(p2.value.entries, TAG_INTER_IFD));
        if p4.None? then None
        else Some([Ifd(IFD0, TagsOf(r.entries))] + p1.value.ds + p2.value.ds + p3.value.ds + p4.value.ds)
  }

  // exif_examine_app: two equal letters tell the byte order, anything else is fatal.
  function ReadSegment(f: seq<Byte>): Option<seq<Ifd>> {
    if |f| < 2 then None
    else if f[0] == 0x49 && f[1] == 0x49 then ReadApp(false, f)
    else if f[0] == 0x4D && f[1] == 0x4D then ReadApp(true, f)
    else None
  }

  // ---------------------------------------------------------------- what comes back

  // A tag as reading finds what writing made of it: a pair of 16-bit numbers in a big-endian entry has changed places.
  function Came(be: bool, t: Tag): (r: Tag)
    ensures r.id == t.id && r.typ == t.typ && r.count == t.count && r.size == t.size && |r.data| == |t.data|
  {
    if be && WordType(t.typ) && !IsFar(t) && |t.data| == 4 then t.(data := t.data[2..] + t.data[..2]) else t
  }

  function CameTags(be: bool, tags: seq<Tag>): (r: seq<Tag>)
    ensures |r| == |tags| && forall i | 0 <= i < |tags| :: r[i] == Came(be, tags[i])
  {
    seq(|tags|, i requires 0 <= i < |tags| => Came(be, tags[i]))
  }

  function CameIfd(be: bool, d: Ifd): Ifd {
    Ifd(d.nr, CameTags(be, d.tags))
  }

  // In big-endian order the second directory is not found.
  function CameBack(be: bool, ds: seq<Ifd>): seq<Ifd> {
    if ds == [] then []
    else (if be && ds[0].nr == IFD1 then [] else [CameIfd(be, ds[0])]) + CameBack(be, ds[1..])
  }

  // ---------------------------------------------------------------- reading one entry

  lemma SwapBack(be: bool, x: seq<Byte>)
    requires |x| == 2 || |x| == 4
    ensures Swap(be, Swap(be, x)) == x
  {
    if |x| == 4 { SwapTwice(x); } else { SwapTwo(x); }
  }

  lemma SwapTwo(x: seq<Byte>)
    requires |x| == 2
    ensures Reversed(x) == [x[1], x[0]] && Reversed(Reversed(x)) == x
  {
    assert Reversed(x[1..]) == [x[1]];
    var y := Reversed(x);
    assert y == [x[1], x[0]] && Reversed(y[1..]) == [x[0]];
  }

  lemma ReadsWord(be: bool, f: seq<Byte>, pos: nat, x: nat)
    requires At(f, pos, Put16(be, x)) && x < 65536
    ensures Word(be, f, pos) == Some(x)
  {
    SwapBack(be, Le16(x));
    Le16RoundTrip(x);
  }

  lemma ReadsLong(be: bool, f: seq<Byte>, pos: nat, x: nat)
    requires At(f, pos, Put32(be, x)) && x < 0x1_0000_0000
    ensures Long(be, f, pos) == Some(x)
  {
    SwapBack(be, Le32(x));
    Le32RoundTrip(x);
  }

  // Id, type and count of an entry.
  lemma ReadsFields(be: bool, f: seq<Byte>, pos: nat, t: Tag)
    requires At(f, pos, HeadOf(be, t)) && WellTyped(t)
    ensures Word(be, f, pos) == Some(t.id) && Word(be, f, pos + 2) == Some(t.typ) && Long(be, f, pos + 4) == Some(t.count)
  {
    AtSplit(f, pos, Put16(be, t.id) + Put16(be, t.typ), Put32(be, t.count));
    AtSplit(f, pos, Put16(be, t.id), Put16(be, t.typ));
    ReadsWord(be, f, pos, t.id);
    ReadsWord(be, f, pos + 2, t.typ);
    ReadsLong(be, f, pos + 4, t.count);
  }

  // The whole entry, given its last four bytes.
  lemma ReadsEntryHead(be: bool, f: seq<Byte>, pos: nat, t: Tag, last: seq<Byte>)
    requires At(f, pos, HeadOf(be, t) + last) && WellTyped(t) && |last| == 4
    ensures var stored := StoredInline(be, t.typ, t.count, last); ReadHead(be, f, pos) == Some(Read(t.(data := stored), U32(stored)))
  {
    AtSplit(f, pos, HeadOf(be, t), last);
    ReadsFields(be, f, pos, t);
  }

  lemma ReadsNear(be: bool, f: seq<Byte>, pos: nat, t: Tag)
    requires WellTyped(t) && !IsFar(t) && At(f, pos, HeadOf(be, t) + Inline(be, t))
    ensures ReadTag(be, f, pos) == Some(Read(Came(be, t), U32(Came(be, t).data)))
  {
    ReadsEntryHead(be, f, pos, t, Inline(be, t));
    InlineComes(be, t);
  }

  lemma InlineComes(be: bool, t: Tag)
    requires WellTyped(t) && !IsFar(t)
    ensures t.(data := StoredInline(be, t.typ, t.count, Inline(be, t))) == Came(be, t)
  {
    InlineComesBack(be, t);
    SmallCount(t);
  }

  // A value of single bytes that fits the entry has at most four.
  lemma SmallCount(t: Tag)
    requires WellTyped(t)
    ensures ByteType(t.typ) ==> t.size == t.count
  {
  }

  lemma ReadsFar(be: bool, f: seq<Byte>, pos: nat, t: Tag, offs: nat)
    requires WritableTag(t) && IsFar(t) && Known(t.typ) && 0 < offs < 0x1_0000_0000
    requires At(f, pos, HeadOf(be, t) + Put32(be, offs)) && At(f, offs, Emit(be, t))
    ensures ReadTag(be, f, pos) == Some(Read(t, offs))
  {
    var last, stored := Put32(be, offs), Le32(offs);
    ReadsEntryHead(be, f, pos, t, last);
    StoredOffset(be, t, offs, last, stored);
    FetchesFar(be, f, t, stored, offs);
    TagIsRead(be, f, pos, Read(t.(data := stored), offs), Read(t, offs));
  }

  lemma StoredOffset(be: bool, t: Tag, offs: nat, last: seq<Byte>, stored: seq<Byte>)
    requires WellTyped(t) && IsFar(t) && offs < 0x1_0000_0000 && last == Put32(be, offs) && stored == Le32(offs)
    ensures StoredInline(be, t.typ, t.count, last) == stored && U32(stored) == offs
  {
    SmallCount(t);
    SwapBack(be, stored);
    Le32RoundTrip(offs);
  }

  lemma TagIsRead(be: bool, f: seq<Byte>, pos: nat, r: Read, r': Read)
    requires ReadHead(be, f, pos) == Some(r) && Fetched(be, f, r) == Some(r')
    ensures ReadTag(be, f, pos) == Some(r')
  {
  }

  lemma FetchesFar(be: bool, f: seq<Byte>, t: Tag, stored: seq<Byte>, offs: nat)
    requires WritableTag(t) && IsFar(t) && Known(t.typ) && 0 < offs && At(f, offs, Emit(be, t))
    ensures Fetched(be, f, Read(t.(data := stored), offs)) == Some(Read(t, offs))
  {
    var n := t.size;
    assert f[offs..offs + n] == Items(be, t.typ, t.count, t.data);
    ItemsTwice(be, t.typ, t.count, t.data);
  }

  lemma ItemTwice(be: bool, typ: nat, x: seq<Byte>)
    requires Known(typ) && |x| == TypeSize(typ)
    ensures Item(be, typ, Item(be, typ, x)) == x
  {
    if RatType(typ) {
      SwapBack(be, x[..4]);
      SwapBack(be, x[4..]);
      var y := Swap(be, x[..4]) + Swap(be, x[4..]);
      assert y[..4] == Swap(be, x[..4]) && y[4..] == Swap(be, x[4..]) && x == x[..4] + x[4..];
    } else if typ == TYPE_DOUBLE {
      ReversedTwice(x);
    } else if !ByteType(typ) {
      SwapBack(be, x);
    }
  }

  lemma {:induction false} ReversedTwice(x: seq<Byte>)
    ensures Reversed(Reversed(x)) == x
  {
    if x != [] {
      ReversedTwice(x[1..]);
      ReversedSnoc(Reversed(x[1..]), x[0]);
    }
  }

  lemma {:induction false} ReversedSnoc(x: seq<Byte>, b: Byte)
    ensures Reversed(x + [b]) == [b] + Reversed(x)
  {
    if x == [] {
      assert [b][1..] == [] && x + [b] == [b];
    } else {
      assert (x + [b])[1..] == x[1..] + [b];
      ReversedSnoc(x[1..], b);
    }
  }

  // Reading a value item by item undoes writing it.
  lemma {:induction false} ItemsTwice(be: bool, typ: nat, n: nat, s: seq<Byte>)
    requires Known(typ) && |s| == TypeSize(typ) * n
    ensures Items(be, typ, n, Items(be, typ, n, s)) == s
    decreases n
  {
    if n > 0 {
      var u := TypeSize(typ);
      assert u * n == u * (n - 1) + u;
      ItemTwice(be, typ, s[..u]);
      ItemsTwice(be, typ, n - 1, s[u..]);
      var x, y := Item(be, typ, s[..u]), Items(be, typ, n - 1, s[u..]);
      assert (x + y)[..u] == x && (x + y)[u..] == y;
      assert s == s[..u] + s[u..];
    }
  }

  // ---------------------------------------------------------------- what either byte order keeps

  /** An inline value that is written and read again is the same exactly unless it is a pair of 16-bit numbers
      in big-endian order: the two change places, so that a single one is lost from the front. */
  lemma InlineComesBack(be: bool, t: Tag)
    requires |t.data| == 4 && (ByteType(t.typ) ==> t.count <= 4)
    ensures StoredInline(be, t.typ, t.count, Inline(be, t)) == t.data <==> !(be && WordType(t.typ)) || t.data[..2] == t.data[2..]
    ensures be && WordType(t.typ) ==> StoredInline(be, t.typ, t.count, Inline(be, t)) == t.data[2..] + t.data[..2]
  {
    var a, b := t.data[..2], t.data[2..];
    assert t.data == a + b;
    SwapTwice(t.data);
    SwapPair(a, b);
    if be && WordType(t.typ) && b + a == a + b {
      assert (b + a)[..2] == b && (a + b)[..2] == a;
    }
  }

  lemma SwapTwice(x: seq<Byte>)
    requires |x| == 4
    ensures Reversed(Reversed(x)) == x
  {
    ReversedFour(x);
    ReversedFour(Reversed(x));
  }

  lemma ReversedFour(x: seq<Byte>)
    requires |x| == 4
    ensures Reversed(x) == [x[3], x[2], x[1], x[0]]
  {
    var y := x[1..];
    var z := y[1..];
    assert Reversed(z[1..]) == [z[1]];
    assert Reversed(z) == [z[1], z[0]];
    assert Reversed(y) == [y[2], y[1], y[0]];
  }

  lemma SwapPair(a: seq<Byte>, b: seq<Byte>)
    requires |a| == 2 && |b| == 2
    ensures Reversed(Reversed(a) + Reversed(b)) == b + a
  {
    assert Reversed(a[1..]) == [a[1]] && Reversed(b[1..]) == [b[1]];
    ReversedFour(Reversed(a) + Reversed(b));
  }

  lemma {:induction false} ReversedAt(x: seq<Byte>, i: nat)
    requires i < |x|
    ensures Reversed(x)[i] == x[|x| - 1 - i]
  {
    if i < |x| - 1 {
      ReversedAt(x[1..], i);
    }
  }

  /** In big-endian order every number of a value has its highest byte first: a rational is two numbers, a value of
      bytes is none. */
  lemma ItemIs(typ: nat, x: seq<Byte>, i: nat)
    requires Known(typ) && |x| == TypeSize(typ) && i < |x|
    ensures Item(true, typ, x)[i] == x[if typ in {1, 2, 7} then i else if typ in {5, 10} then (if i < 4 then 3 - i else 11 - i) else |x| - 1 - i]
  {
    if RatType(typ) {
      if i < 4 { ReversedAt(x[..4], i); } else { ReversedAt(x[4..], i - 4); }
    } else {
      ReversedAt(x, i);
    }
  }

  // The link behind the entries is read as 16 bits.
  function LinkStored(be: bool, link: seq<Byte>): nat
    requires |link| == 4
  {
    U16(Swap(be, link[..2]))
  }

  /** The link that was written is the link that is read exactly if it is 0 or the order is little-endian:
      in a big-endian segment the second directory is not found. */
  lemma LinkComesBack(be: bool, x: nat)
    requires x < 65536
    ensures LinkStored(be, Put32(be, x)) == if be then 0 else x
  {
    var w := Le32(x);
    Le16RoundTrip(x);
    ReversedFour(w);
    assert Reversed(Reversed(w)[..2][1..]) == [w[2]];
    assert Reversed(Reversed(w)[..2]) == [w[2], w[3]];
  }

  // ---------------------------------------------------------------- reading one directory

  // Directory d lies at `at`, all its values with it.
  ghost predicate Lies(be: bool, f: seq<Byte>, d: Ifd, at: nat, next: bool) {
    && Writable(d.tags) && at % 2 == 0 && at >= 8 && Base(at, |d.tags|) + TagRooms(d.tags) < 65536
    && (forall i | 0 <= i < |d.tags| :: IsFar(d.tags[i]) ==> Known(d.tags[i].typ))
    && At(f, at, DirBytes(be, Dir(d.nr, PiecesOf(be, d.tags)), at, next))
  }

  lemma NearEntry(be: bool, f: seq<Byte>, d: Ifd, at: nat, next: bool, j: nat)
    requires Lies(be, f, d, at, next) && j < |d.tags| && !IsFar(d.tags[j])
    ensures At(f, at + 2 + 12 * j, HeadOf(be, d.tags[j]) + Inline(be, d.tags[j]))
  {
    var e := Dir(d.nr, PiecesOf(be, d.tags));
    EntryIsAt(be, f, e, at, next, j, ValueOffset(at, e.tags, j));
  }

  lemma FarEntry(be: bool, f: seq<Byte>, d: Ifd, at: nat, next: bool, j: nat) returns (offs: nat)
    requires Lies(be, f, d, at, next) && j < |d.tags| && IsFar(d.tags[j])
    ensures At(f, at + 2 + 12 * j, HeadOf(be, d.tags[j]) + Put32(be, offs)) && At(f, offs, Emit(be, d.tags[j])) && 0 < offs < 65536
  {
    var e := Dir(d.nr, PiecesOf(be, d.tags));
    offs := ValueOffset(at, e.tags, j);
    EntryIsAt(be, f, e, at, next, j, offs);
    PiecesWritten(be, d.tags);
    ValueIsAt(be, f, e, at, next, j, offs);
    OffsetInside(e, at, j);
    RoomsAreRooms(be, d.tags);
  }

  lemma ReadsEntry(be: bool, f: seq<Byte>, d: Ifd, at: nat, next: bool, j: nat)
    requires Lies(be, f, d, at, next) && j < |d.tags|
    ensures EntryReads(be, f, at + 2 + 12 * j, d.tags[j])
  {
    if IsFar(d.tags[j]) {
      var offs := FarEntry(be, f, d, at, next, j);
      ReadsFar(be, f, at + 2 + 12 * j, d.tags[j], offs);
    } else {
      NearEntry(be, f, d, at, next, j);
      ReadsNear(be, f, at + 2 + 12 * j, d.tags[j]);
    }
  }

  lemma PiecesWritten(be: bool, tags: seq<Tag>)
    requires Writable(tags) && forall i | 0 <= i < |tags| :: IsFar(tags[i]) ==> Known(tags[i].typ)
    ensures AllWritten(PiecesOf(be, tags))
  {
  }

  // What was read is what is left of the tag, with its value if it stands in the entry.
  ghost predicate ReadIs(be: bool, r: Read, t: Tag) {
    r.tag == Came(be, t) && (!IsFar(t) ==> r.value == U32(Four(Came(be, t).data)))
  }

  // The entries read are those of the first n tags.
  ghost predicate ReadsAre(be: bool, rs: seq<Read>, tags: seq<Tag>) {
    |rs| == |tags| && forall i | 0 <= i < |rs| :: ReadIs(be, rs[i], tags[i])
  }

  function Four(s: seq<Byte>): (r: seq<Byte>)
    ensures |r| == 4
  {
    if |s| == 4 then s else [0, 0, 0, 0]
  }

  // The entry at pos reads as this tag.
  ghost predicate EntryReads(be: bool, f: seq<Byte>, pos: nat, t: Tag) {
    var r := ReadTag(be, f, pos);
    r.Some? && ReadIs(be, r.value, t)
  }

  ghost predicate EntriesRead(be: bool, f: seq<Byte>, pos: nat, tags: seq<Tag>) {
    forall j | 0 <= j < |tags| :: EntryReads(be, f, pos + 12 * j, tags[j])
  }

  lemma {:induction false} ReadsTags(be: bool, f: seq<Byte>, pos: nat, tags: seq<Tag>, n: nat) returns (rs: seq<Read>)
    requires EntriesRead(be, f, pos, tags) && n <= |tags|
    ensures ReadTags(be, f, pos, n) == Some(rs) && ReadsAre(be, rs, tags[..n])
  {
    if n == 0 {
      rs := [];
    } else {
      var k := n - 1;
      rs := ReadsTags(be, f, pos, tags, k);
      assert EntryReads(be, f, pos + 12 * k, tags[k]);
      var get := TagAt(be, f, pos);
      var r := get(k).value;
      OneMoreRead(be, rs, r, tags, k);
      AllNext(k, get, rs, r);
      rs := rs + [r];
    }
  }

  lemma OneMoreRead(be: bool, rs: seq<Read>, r: Read, tags: seq<Tag>, k: nat)
    requires k < |tags| && ReadsAre(be, rs, tags[..k]) && ReadIs(be, r, tags[k])
    ensures ReadsAre(be, rs + [r], tags[..k + 1])
  {
    assert forall i | 0 <= i < k :: tags[..k][i] == tags[..k + 1][i];
  }

  lemma {:induction false} TagsAre(be: bool, rs: seq<Read>, tags: seq<Tag>)
    requires ReadsAre(be, rs, tags)
    ensures TagsOf(rs) == CameTags(be, tags)
  {
    if rs != [] {
      var n := |rs| - 1;
      TagsAre(be, rs[..n], tags[..n]);
      assert CameTags(be, tags) == CameTags(be, tags[..n]) + [Came(be, tags[n])];
    }
  }

  lemma LyingEntries(be: bool, f: seq<Byte>, d: Ifd, at: nat, pos: nat, next: bool)
    requires Lies(be, f, d, at, next) && pos == at + 2
    ensures EntriesRead(be, f, pos, d.tags)
  {
    forall j | 0 <= j < |d.tags| ensures EntryReads(be, f, pos + 12 * j, d.tags[j]) {
      ReadsEntry(be, f, d, at, next, j);
    }
  }

  // Where a directory's link leads.
  function LinkOf(d: Ifd, at: nat, next: bool): nat {
    if next then Base(at, |d.tags|) + TagRooms(d.tags) else 0
  }

  // The link as it is read.
  function LinkRead(be: bool, link: nat): nat {
    if be then 0 else link
  }

  // The two fields around a directory's entries.
  ghost predicate EndsRead(be: bool, f: seq<Byte>, at: nat, n: nat, link: nat) {
    Word(be, f, at) == Some(n) && Word(be, f, at + 2 + 12 * n) == Some(link)
  }

  lemma LyingEnds(be: bool, f: seq<Byte>, d: Ifd, at: nat, next: bool)
    requires Lies(be, f, d, at, next)
    ensures EndsRead(be, f, at, |d.tags|, LinkRead(be, LinkOf(d, at, next)))
  {
    var n, link := |d.tags|, LinkOf(d, at, next);
    var base := Base(at, n);
    EndsLie(be, f, d, at, next, base);
    ReadsWord(be, f, at, n);
    ReadsLink(be, f, base - 4, link);
    EndsAre(be, f, at, n, base, LinkRead(be, link));
  }

  lemma EndsLie(be: bool, f: seq<Byte>, d: Ifd, at: nat, next: bool, base: nat)
    requires Lies(be, f, d, at, next) && base == Base(at, |d.tags|)
    ensures At(f, at, Put16(be, |d.tags|)) && At(f, base - 4, Put32(be, LinkOf(d, at, next))) && LinkOf(d, at, next) < 65536
  {
    var e, link := Dir(d.nr, PiecesOf(be, d.tags)), LinkOf(d, at, next);
    RoomsAreRooms(be, d.tags);
    DirEnds(be, f, e, at, next, base, link);
  }

  lemma EndsAre(be: bool, f: seq<Byte>, at: nat, n: nat, base: nat, link: nat)
    requires Word(be, f, at) == Some(n) && base == Base(at, n) && Word(be, f, base - 4) == Some(link)
    ensures EndsRead(be, f, at, n, link)
  {
  }

  lemma AllTagsRead(be: bool, f: seq<Byte>, pos: nat, tags: seq<Tag>) returns (rs: seq<Read>)
    requires EntriesRead(be, f, pos, tags)
    ensures ReadTags(be, f, pos, |tags|) == Some(rs) && ReadsAre(be, rs, tags) && TagsOf(rs) == CameTags(be, tags)
  {
    rs := ReadsTags(be, f, pos, tags, |tags|);
    assert tags[..|tags|] == tags;
    TagsAre(be, rs, tags);
  }

  // Count, entries and link of a directory read as they should.
  ghost predicate IfdReads(be: bool, f: seq<Byte>, at: nat, n: nat, rs: seq<Read>, link: nat) {
    Word(be, f, at) == Some(n) && ReadTags(be, f, at + 2, n) == Some(rs) && |rs| == n && Word(be, f, at + 2 + 12 * n) == Some(link)
  }

  lemma ReadIfdIs(be: bool, f: seq<Byte>, at: nat, n: nat, rs: seq<Read>, link: nat)
    requires IfdReads(be, f, at, n, rs, link)
    ensures ReadIfd(be, f, at) == Some(IfdRead(rs, if n > 0 then link else 0))
  {
  }

  lemma LyingTags(be: bool, f: seq<Byte>, d: Ifd, at: nat, pos: nat, n: nat, next: bool) returns (rs: seq<Read>)
    requires Lies(be, f, d, at, next) && pos == at + 2 && n == |d.tags|
    ensures ReadTags(be, f, pos, n) == Some(rs) && ReadsAre(be, rs, d.tags) && TagsOf(rs) == CameTags(be, d.tags)
  {
    LyingEntries(be, f, d, at, pos, next);
    rs := AllTagsRead(be, f, pos, d.tags);
  }

  lemma LyingReads(be: bool, f: seq<Byte>, d: Ifd, at: nat, next: bool) returns (rs: seq<Read>)
    requires Lies(be, f, d, at, next)
    ensures IfdReads(be, f, at, |d.tags|, rs, LinkRead(be, LinkOf(d, at, next))) && ReadsAre(be, rs, d.tags) && TagsOf(rs) == CameTags(be, d.tags)
  {
    var pos, n, link := at + 2, |d.tags|, LinkRead(be, LinkOf(d, at, next));
    rs := LyingTags(be, f, d, at, pos, n, next);
    LyingEnds(be, f, d, at, next);
    IfdIsRead(be, f, at, pos, n, rs, link);
  }

  lemma IfdIsRead(be: bool, f: seq<Byte>, at: nat, pos: nat, n: nat, rs: seq<Read>, link: nat)
    requires EndsRead(be, f, at, n, link) && pos == at + 2 && ReadTags(be, f, pos, n) == Some(rs) && |rs| == n
    ensures IfdReads(be, f, at, n, rs, link)
  {
  }

  /** A directory is read back, with all its values, from where it lies. */
  lemma ReadsIfd(be: bool, f: seq<Byte>, d: Ifd, at: nat, next: bool) returns (rs: seq<Read>)
    requires Lies(be, f, d, at, next)
    ensures ReadIfd(be, f, at) == Some(IfdRead(rs, if |d.tags| > 0 then LinkRead(be, LinkOf(d, at, next)) else 0))
    ensures ReadsAre(be, rs, d.tags) && TagsOf(rs) == CameTags(be, d.tags)
  {
    rs := LyingReads(be, f, d, at, next);
    ReadIfdIs(be, f, at, |d.tags|, rs, LinkRead(be, LinkOf(d, at, next)));
  }

  // Two of the four bytes of a link.
  lemma ReadsLink(be: bool, f: seq<Byte>, pos: nat, x: nat)
    requires At(f, pos, Put32(be, x)) && x < 65536
    ensures Word(be, f, pos) == Some(LinkRead(be, x))
  {
    LinkComesBack(be, x);
    assert f[pos..pos + 2] == f[pos..pos + 4][..2] == Put32(be, x)[..2];
  }

  lemma {:induction false} LastIsTag(be: bool, rs: seq<Read>, tags: seq<Tag>, id: nat)
    requires ReadsAre(be, rs, tags) && DistinctIds(tags)
    ensures var i := TagIndex(tags, id);
      && (i == |tags| ==> LastValue(rs, id) == 0)
      && (i < |tags| && !IsFar(tags[i]) ==> LastValue(rs, id) == U32(Four(Came(be, tags[i]).data)))
  {
    if rs != [] {
      var n := |rs| - 1;
      LastIsTag(be, rs[..n], tags[..n], id);
      TagIndexFront(tags, id);
    }
  }

  lemma {:induction false} TagIndexFront(tags: seq<Tag>, id: nat)
    requires tags != [] && DistinctIds(tags)
    ensures var n := |tags| - 1;
      && (tags[n].id == id ==> TagIndex(tags, id) == n)
      && (tags[n].id != id ==> TagIndex(tags, id) == (if TagIndex(tags[..n], id) == n then n + 1 else TagIndex(tags[..n], id)))
  {
    if |tags| > 1 {
      var n := |tags| - 1;
      assert tags[..n][1..] == tags[1..][..n - 1];
      TagIndexFront(tags[1..], id);
    }
  }

  // ---------------------------------------------------------------- reading the segment

  // A pointer that leads nowhere is absent or zero.
  predicate LeadsNowhere(tags: seq<Tag>, id: nat) {
    var i := TagIndex(tags, id);
    i == |tags| || (!IsFar(tags[i]) && LongType(tags[i].typ) && U32(Four(tags[i].data)) == 0)
  }

  predicate Has(ds: seq<Ifd>, nr: nat) {
    IfdIndex(ds, nr) < |ds|
  }

  // Directories as the writer leaves them, none without its pointer and no pointer without its directory.
  ghost predicate Sound(ds: seq<Ifd>) {
    && AllWritable(ds) && KnownTags(ds) && AllDistinct(ds) && Points(ds) && IfdStart(ds, |ds|) < 65536
    && Ascending(ds, 0) && ds != [] && ds[0].nr == IFD0 && |ds[0].tags| > 0
    && (!Has(ds, EXIF_IFD) ==> LeadsNowhere(ds[0].tags, TAG_EXIF_IFD))
    && (!Has(ds, GPS_IFD) ==> LeadsNowhere(ds[0].tags, TAG_GPS_IFD))
    && (Has(ds, EXIF_IFD) && !Has(ds, INTER_IFD) ==> LeadsNowhere(ds[IfdIndex(ds, EXIF_IFD)].tags, TAG_INTER_IFD))
  }

  lemma LiesAtStart(be: bool, ds: seq<Ifd>, thumb: seq<Byte>, k: nat) returns (next: bool)
    requires Sound(ds) && k < |ds|
    ensures Lies(be, Segment(be, DirsOf(be, ds), thumb), ds[k], IfdStart(ds, k), next)
    ensures next <==> ds[k].nr == IFD0 && k + 1 < |ds| && ds[k + 1].nr == IFD1
  {
    var dirs := DirsOf(be, ds);
    next := HasNext(dirs, k);
    KnownIsWritten(be, ds);
    DirAtStart(be, dirs, thumb, k);
    StartsAreStarts(be, ds, k);
    StartsIncrease(ds, k + 1, |ds|);
    StartsIncrease(ds, k, k);
    KnownInDir(ds, k);
  }

  lemma KnownInDir(ds: seq<Ifd>, k: nat)
    requires KnownTags(ds) && k < |ds|
    ensures forall i | 0 <= i < |ds[k].tags| :: IsFar(ds[k].tags[i]) ==> Known(ds[k].tags[i].typ)
  {
  }

  // The list of at most one directory with that number.
  function Only(ds: seq<Ifd>, nr: nat): seq<Ifd> {
    if Has(ds, nr) then [ds[IfdIndex(ds, nr)]] else []
  }

  function CameParts(be: bool, ds: seq<Ifd>, nr: nat): seq<Ifd> {
    if Has(ds, nr) then [CameIfd(be, ds[IfdIndex(ds, nr)])] else []
  }

  // A pointer's value, in the directory that holds it.
  lemma PointerRead(be: bool, ds: seq<Ifd>, k: nat, rs: seq<Read>, h: Place)
    requires k < |ds| && ReadsAre(be, rs, ds[k].tags) && DistinctIds(ds[k].tags) && IfdIndex(ds, h.nr) == k && IsPointer(ds, h.nr, h.id)
    ensures LastValue(rs, h.id) == LongAt(ds, h.nr, h.id)
  {
    LastIsTag(be, rs, ds[k].tags, h.id);
  }

  // What reading part nr gives when the offset is where it lies, or 0 where there is none.
  lemma ReadsPart(be: bool, ds: seq<Ifd>, thumb: seq<Byte>, nr: nat, offs: nat) returns (p: Part)
    requires Sound(ds) && offs == if Has(ds, nr) then IfdStart(ds, IfdIndex(ds, nr)) else 0
    ensures ReadPart(be, Segment(be, DirsOf(be, ds), thumb), nr, offs) == Some(p) && p.ds == CameParts(be, ds, nr)
    ensures if Has(ds, nr) then ReadsAre(be, p.entries, ds[IfdIndex(ds, nr)].tags) else p.entries == []
  {
    var k := IfdIndex(ds, nr);
    if k < |ds| {
      var next := LiesAtStart(be, ds, thumb, k);
      StartsIncrease(ds, k, k);
      var rs := ReadsIfd(be, Segment(be, DirsOf(be, ds), thumb), ds[k], offs, next);
      p := Part([CameIfd(be, ds[k])], rs, if |ds[k].tags| > 0 then LinkRead(be, LinkOf(ds[k], offs, next)) else 0);
    } else {
      p := Part([], [], 0);
    }
  }

  lemma FirstIndex(ds: seq<Ifd>)
    requires Ascending(ds, 0) && ds != [] && ds[0].nr == IFD0
    ensures IfdIndex(ds, IFD0) == 0
    ensures Has(ds, IFD1) <==> |ds| > 1 && ds[1].nr == IFD1
    ensures Has(ds, IFD1) ==> IfdIndex(ds, IFD1) == 1
  {
    var k := IfdIndex(ds, IFD1);
    var second := if |ds| > 1 then ds[1].nr else IFD1;
    if 1 < k < |ds| {
      assert false;
    }
  }

  // Where the pointer to a directory leads.
  lemma PointerLeads(be: bool, ds: seq<Ifd>, nr: nat, h: Place, k: nat, rs: seq<Read>)
    requires Sound(ds) && Home(nr) == Some(h) && k < |ds| && IfdIndex(ds, h.nr) == k && ReadsAre(be, rs, ds[k].tags)
    requires !Has(ds, nr) ==> LeadsNowhere(ds[k].tags, h.id)
    ensures LastValue(rs, h.id) == if Has(ds, nr) then IfdStart(ds, IfdIndex(ds, nr)) else 0
  {
    if Has(ds, nr) {
      assert PointsAt(ds, IfdIndex(ds, nr), h);
      PointerRead(be, ds, k, rs, h);
    } else {
      LastIsTag(be, rs, ds[k].tags, h.id);
    }
  }

  lemma LinkLeads(ds: seq<Ifd>, next: bool)
    requires Sound(ds) && (next <==> |ds| > 1 && ds[1].nr == IFD1)
    ensures LinkOf(ds[0], 8, next) == if Has(ds, IFD1) then IfdStart(ds, IfdIndex(ds, IFD1)) else 0
  {
    FirstIndex(ds);
    assert IfdStart(ds, 1) == IfdStart(ds, 0) + IfdSize(ds[0]);
  }

  // Directories by ascending number, from n on.
  predicate Ascending(ds: seq<Ifd>, n: nat) {
    (forall i, j | 0 <= i < j < |ds| :: ds[i].nr < ds[j].nr) && forall i | 0 <= i < |ds| :: n <= ds[i].nr <= INTER_IFD
  }

  lemma {:induction false} NotThere(ds: seq<Ifd>, nr: nat)
    requires forall i | 0 <= i < |ds| :: ds[i].nr != nr
    ensures Only(ds, nr) == []
  {
    if ds != [] {
      NotThere(ds[1..], nr);
    }
  }

  // Whether number n comes first decides what is left for the numbers above it.
  lemma InOrder(ds: seq<Ifd>, n: nat, n': nat) returns (rest: seq<Ifd>)
    requires Ascending(ds, n) && n' == n + 1
    ensures Only(ds, n) + rest == ds && Ascending(rest, n') && forall m: nat | m >= n' :: Only(ds, m) == Only(rest, m)
  {
    if ds != [] && ds[0].nr == n {
      rest := ds[1..];
      assert Only(ds, n) == [ds[0]];
      RestAscends(ds, rest, n');
    } else {
      rest := ds;
      NoneAscends(ds, n, n');
      NotThere(ds, n);
    }
  }

  lemma RestAscends(ds: seq<Ifd>, rest: seq<Ifd>, n': nat)
    requires ds != [] && Ascending(ds, ds[0].nr) && n' == ds[0].nr + 1 && rest == ds[1..]
    ensures Ascending(rest, n') && forall m: nat | m >= n' :: Only(ds, m) == Only(rest, m)
  {
  }

  lemma NoneAscends(ds: seq<Ifd>, n: nat, n': nat)
    requires Ascending(ds, n) && (ds == [] || ds[0].nr != n) && n' == n + 1
    ensures Ascending(ds, n') && forall i | 0 <= i < |ds| :: ds[i].nr != n
  {
    forall i | 0 <= i < |ds| ensures ds[i].nr > n {
      assert i > 0 ==> ds[0].nr < ds[i].nr;
    }
  }

  function PartsFrom(ds: seq<Ifd>, n: nat): seq<Ifd>
    decreases INTER_IFD + 1 - n
  {
    if n > INTER_IFD then [] else Only(ds, n) + PartsFrom(ds, n + 1)
  }

  lemma {:induction false} SameParts(a: seq<Ifd>, b: seq<Ifd>, n: nat)
    requires forall m: nat | m >= n :: Only(a, m) == Only(b, m)
    ensures PartsFrom(a, n) == PartsFrom(b, n)
    decreases INTER_IFD + 1 - n
  {
    if n <= INTER_IFD {
      assert Only(a, n) == Only(b, n);
      SameParts(a, b, n + 1);
    }
  }

  // Sorted directories are the parts by number.
  lemma {:induction false} PartsInOrder(ds: seq<Ifd>, n: nat)
    requires Ascending(ds, n)
    ensures PartsFrom(ds, n) == ds
    decreases INTER_IFD + 1 - n, 1
  {
    if ds == [] {
      NoParts(n);
    } else {
      AscendsWithin(ds, n);
      RestInOrder(ds, n, n + 1);
    }
  }

  lemma {:induction false} NoParts(n: nat)
    ensures PartsFrom([], n) == []
    decreases INTER_IFD + 1 - n
  {
    if n <= INTER_IFD {
      NoParts(n + 1);
    }
  }

  lemma AscendsWithin(ds: seq<Ifd>, n: nat)
    requires Ascending(ds, n) && ds != []
    ensures n <= INTER_IFD
  {
    assert n <= ds[0].nr;
  }

  lemma RestInOrder(ds: seq<Ifd>, n: nat, n': nat)
    requires Ascending(ds, n) && n <= INTER_IFD && n' == n + 1
    ensures Only(ds, n) + PartsFrom(ds, n') == ds
    decreases INTER_IFD + 1 - n, 0
  {
    var rest := FirstPart(ds, n, n');
    PartsInOrder(rest, n');
  }

  lemma FirstPart(ds: seq<Ifd>, n: nat, n': nat) returns (rest: seq<Ifd>)
    requires Ascending(ds, n) && n' == n + 1
    ensures Only(ds, n) + rest == ds && Ascending(rest, n') && PartsFrom(ds, n') == PartsFrom(rest, n')
  {
    rest := InOrder(ds, n, n');
    SameParts(ds, rest, n');
  }

  lemma FiveParts(ds: seq<Ifd>)
    ensures PartsFrom(ds, 0) == Only(ds, 0) + Only(ds, 1) + Only(ds, 2) + Only(ds, 3) + Only(ds, 4)
  {
    var a, b, c, d, e := Only(ds, 0), Only(ds, 1), Only(ds, 2), Only(ds, 3), Only(ds, 4);
    assert PartsFrom(ds, 4) == e;
    assert PartsFrom(ds, 3) == d + e;
    assert PartsFrom(ds, 2) == c + (d + e);
    assert PartsFrom(ds, 1) == b + (c + (d + e));
    FlattenFive(a, b, c, d, e);
  }

  lemma ReadAppIs(be: bool, f: seq<Byte>, rs: seq<Read>, link: nat, p1: Part, p2: Part, p3: Part, p4: Part)
    requires Long(be, f, 4) == Some(8) && ReadIfd(be, f, 8) == Some(IfdRead(rs, link)) && ReadPart(be, f, IFD1, link) == Some(p1)
    requires ReadPart(be, f, EXIF_IFD, LastValue(rs, TAG_EXIF_IFD)) == Some(p2)
    requires ReadPart(be, f, GPS_IFD, LastValue(rs, TAG_GPS_IFD)) == Some(p3)
    requires ReadPart(be, f, INTER_IFD, LastValue(p2.entries, TAG_INTER_IFD)) == Some(p4)
    ensures ReadApp(be, f) == Some([Ifd(IFD0, TagsOf(rs))] + p1.ds + p2.ds + p3.ds + p4.ds)
  {
  }

  /** Reading a segment in the order it was written in gives back every directory with every tag, in order, less
      what that order loses. */
  lemma ReadsBack(be: bool, ds: seq<Ifd>, thumb: seq<Byte>)
    requires Sound(ds)
    ensures ReadApp(be, Segment(be, DirsOf(be, ds), thumb)) == Some(CameBack(be, ds))
  {
    var f := Segment(be, DirsOf(be, ds), thumb);
    var rs, link := ReadsFirst(be, ds, thumb);
    PointerLeads(be, ds, EXIF_IFD, Place(IFD0, TAG_EXIF_IFD), 0, rs);
    PointerLeads(be, ds, GPS_IFD, Place(IFD0, TAG_GPS_IFD), 0, rs);
    var p1 := ReadsSecond(be, ds, thumb, link);
    var p2 := ReadsPart(be, ds, thumb, EXIF_IFD, LastValue(rs, TAG_EXIF_IFD));
    var p3 := ReadsPart(be, ds, thumb, GPS_IFD, LastValue(rs, TAG_GPS_IFD));
    InterLeads(be, ds, p2.entries);
    var p4 := ReadsPart(be, ds, thumb, INTER_IFD, LastValue(p2.entries, TAG_INTER_IFD));
    HeaderReads(be, ds, thumb);
    ReadAppIs(be, f, rs, link, p1, p2, p3, p4);
    PartsComeBack(be, ds);
  }

  // The second directory, which the link leads to or does not.
  lemma ReadsSecond(be: bool, ds: seq<Ifd>, thumb: seq<Byte>, link: nat) returns (p: Part)
    requires Sound(ds) && link == LinkRead(be, if Has(ds, IFD1) then IfdStart(ds, IfdIndex(ds, IFD1)) else 0)
    ensures ReadPart(be, Segment(be, DirsOf(be, ds), thumb), IFD1, link) == Some(p)
    ensures p.ds == if be then [] else CameParts(be, ds, IFD1)
  {
    if be {
      p := Part([], [], 0);
    } else {
      p := ReadsPart(be, ds, thumb, IFD1, link);
    }
  }

  lemma {:induction false} CameBackJoin(be: bool, a: seq<Ifd>, b: seq<Ifd>)
    ensures CameBack(be, a + b) == CameBack(be, a) + CameBack(be, b)
  {
    if a == [] {
      assert a + b == b;
    } else {
      assert (a + b)[1..] == a[1..] + b;
      CameBackJoin(be, a[1..], b);
    }
  }

  lemma PartComesBack(be: bool, ds: seq<Ifd>, nr: nat)
    ensures CameBack(be, Only(ds, nr)) == if be && nr == IFD1 then [] else CameParts(be, ds, nr)
  {
    if Has(ds, nr) {
      var d := ds[IfdIndex(ds, nr)];
      assert [d][1..] == [];
    }
  }

  lemma PartsComeBack(be: bool, ds: seq<Ifd>)
    requires Ascending(ds, 0)
    ensures CameBack(be, ds) == CameParts(be, ds, IFD0) + (if be then [] else CameParts(be, ds, IFD1)) + CameParts(be, ds, EXIF_IFD)
      + CameParts(be, ds, GPS_IFD) + CameParts(be, ds, INTER_IFD)
  {
    var a, b, c, d, e := Only(ds, IFD0), Only(ds, IFD1), Only(ds, EXIF_IFD), Only(ds, GPS_IFD), Only(ds, INTER_IFD);
    PartsInOrder(ds, 0);
    FiveParts(ds);
    CameBackJoin(be, a + b + c + d, e);
    CameBackJoin(be, a + b + c, d);
    CameBackJoin(be, a + b, c);
    CameBackJoin(be, a, b);
    PartComesBack(be, ds, IFD0);
    PartComesBack(be, ds, IFD1);
    PartComesBack(be, ds, EXIF_IFD);
    PartComesBack(be, ds, GPS_IFD);
    PartComesBack(be, ds, INTER_IFD);
  }

  lemma ReadsFirst(be: bool, ds: seq<Ifd>, thumb: seq<Byte>) returns (rs: seq<Read>, link: nat)
    requires Sound(ds)
    ensures ReadIfd(be, Segment(be, DirsOf(be, ds), thumb), 8) == Some(IfdRead(rs, link)) && ReadsAre(be, rs, ds[0].tags)
    ensures link == LinkRead(be, if Has(ds, IFD1) then IfdStart(ds, IfdIndex(ds, IFD1)) else 0)
    ensures IfdIndex(ds, IFD0) == 0 && CameParts(be, ds, IFD0) == [Ifd(IFD0, TagsOf(rs))]
  {
    var next := LiesAtStart(be, ds, thumb, 0);
    rs := ReadsIfd(be, Segment(be, DirsOf(be, ds), thumb), ds[0], 8, next);
    link := LinkRead(be, LinkOf(ds[0], 8, next));
    FirstIndex(ds);
    LinkLeads(ds, next);
  }

  lemma InterLeads(be: bool, ds: seq<Ifd>, rs: seq<Read>)
    requires Sound(ds) && if Has(ds, EXIF_IFD) then ReadsAre(be, rs, ds[IfdIndex(ds, EXIF_IFD)].tags) else rs == []
    ensures LastValue(rs, TAG_INTER_IFD) == if Has(ds, INTER_IFD) then IfdStart(ds, IfdIndex(ds, INTER_IFD)) else 0
  {
    var h := Place(EXIF_IFD, TAG_INTER_IFD);
    if Has(ds, INTER_IFD) {
      assert PointsAt(ds, IfdIndex(ds, INTER_IFD), h);
    }
    if Has(ds, EXIF_IFD) {
      PointerLeads(be, ds, INTER_IFD, h, IfdIndex(ds, EXIF_IFD), rs);
    }
  }

  // The header stands in front of every segment.
  lemma HeaderStands(be: bool, ds: seq<Dir>, thumb: seq<Byte>, pos: nat, r: seq<Byte>)
    requires DirsOk(ds) && At(Header(be), pos, r)
    ensures At(Segment(be, ds, thumb), pos, r)
  {
    AtBody(be, ds, 0, |ds|, pos, r);
    AtSegment(be, ds, thumb, pos, r);
  }

  lemma HeaderReads(be: bool, ds: seq<Ifd>, thumb: seq<Byte>)
    requires AllWritable(ds)
    ensures Long(be, Segment(be, DirsOf(be, ds), thumb), 4) == Some(8)
  {
    assert At(Header(be), 4, Put32(be, 8));
    HeaderStands(be, DirsOf(be, ds), thumb, 4, Put32(be, 8));
    ReadsLong(be, Segment(be, DirsOf(be, ds), thumb), 4, 8);
  }

  /** A written segment begins with "II" if it is little-endian, "MM" if it is big-endian, and behind that stands 42
      in this order. */
  lemma MarkStands(be: bool, ds: seq<Dir>, thumb: seq<Byte>)
    requires DirsOk(ds)
    ensures var f := Segment(be, ds, thumb);
      |f| >= 4 && f[..4] == if be then [0x4D, 0x4D, 0, 42] else [0x49, 0x49, 42, 0]
  {
    var h, f := Header(be), Segment(be, ds, thumb);
    assert At(h, 0, h[..4]);
    HeaderStands(be, ds, thumb, 0, h[..4]);
    SwapTwo(Le16(0x2A));
    assert h[..4] == (if be then [0x4D, 0x4D] else [0x49, 0x49]) + Put16(be, 0x2A);
    assert f[0..4] == f[..4];
  }

  /** The reader finds the byte order by itself, and the directories. */
  lemma SegmentReadsBack(be: bool, ds: seq<Ifd>, thumb: seq<Byte>)
    requires Sound(ds)
    ensures ReadSegment(Segment(be, DirsOf(be, ds), thumb)) == Some(CameBack(be, ds))
  {
    var f := Segment(be, DirsOf(be, ds), thumb);
    MarkStands(be, DirsOf(be, ds), thumb);
    assert f[0] == f[..4][0] && f[1] == f[..4][1];
    ReadsBack(be, ds, thumb);
  }

  // No second directory, and no pair of different 16-bit numbers in an entry.
  predicate Symmetric(ds: seq<Ifd>) {
    forall k | 0 <= k < |ds| :: ds[k].nr != IFD1 && forall i | 0 <= i < |ds[k].tags| :: Came(true, ds[k].tags[i]) == ds[k].tags[i]
  }

  /** Everything comes back exactly from a little-endian segment, or a big-endian one without a second directory and
      without a pair of different 16-bit numbers in an entry. */
  lemma {:induction false} AllComesBack(be: bool, ds: seq<Ifd>)
    ensures CameBack(be, ds) == ds <==> !be || Symmetric(ds)
    ensures |CameBack(be, ds)| <= |ds|
  {
    if ds != [] {
      var d, rest := ds[0], ds[1..];
      AllComesBack(be, rest);
      assert ds == [d] + rest;
      SameIfd(be, d);
      assert Symmetric(ds) <==> (d.nr != IFD1 && CameIfd(true, d) == d) && Symmetric(rest) by {
        SymmetricParts(ds, d, rest);
      }
    }
  }

  lemma SameIfd(be: bool, d: Ifd)
    ensures CameIfd(be, d) == d <==> forall i | 0 <= i < |d.tags| :: Came(be, d.tags[i]) == d.tags[i]
    ensures !be ==> CameIfd(be, d) == d
  {
    if forall i | 0 <= i < |d.tags| :: Came(be, d.tags[i]) == d.tags[i] {
      assert CameTags(be, d.tags) == d.tags;
    }
  }

  lemma SymmetricParts(ds: seq<Ifd>, d: Ifd, rest: seq<Ifd>)
    requires ds == [d] + rest
    ensures Symmetric(ds) <==> (d.nr != IFD1 && CameIfd(true, d) == d) && Symmetric(rest)
  {
    SameIfd(true, d);
    assert ds[0] == d && forall k | 0 <= k < |rest| :: ds[k + 1] == rest[k];
    if d.nr != IFD1 && CameIfd(true, d) == d && Symmetric(rest) {
      forall k | 0 <= k < |ds| ensures ds[k].nr != IFD1 && forall i | 0 <= i < |ds[k].tags| :: Came(true, ds[k].tags[i]) == ds[k].tags[i] {
        if k > 0 {
          assert ds[k] == rest[k - 1];
        }
      }
    }
  }
}
