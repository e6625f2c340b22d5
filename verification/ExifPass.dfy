// The offset pass: every directory's position is stored in the tag that points to it before a byte
// is written.
module ExifPass {
  import opened Bytes
  import opened ExifLayout
  import opened ExifModel
  import opened StableSort
  import opened Wrappers

  // ---------------------------------------------------------------- finding and storing

  // The first directory of that number, or the end.
  function IfdIndex(ds: seq<Ifd>, nr: nat): (k: nat)
    ensures k <= |ds| && (k < |ds| ==> ds[k].nr == nr) && forall i | 0 <= i < k :: ds[i].nr != nr
  {
    if ds == [] || ds[0].nr == nr then 0 else 1 + IfdIndex(ds[1..], nr)
  }

  function TagIndex(tags: seq<Tag>, id: nat): (k: nat)
    ensures k <= |tags| && (k < |tags| ==> tags[k].id == id) && forall i | 0 <= i < k :: tags[i].id != id
  {
    if tags == [] || tags[0].id == id then 0 else 1 + TagIndex(tags[1..], id)
  }

  // exif_put_value for one long: a tag that is there keeps its type, an empty one is given room.
  function LongIn(t: Tag, v: int): Tag {
    if t.count < 1 then t.(count := 1, size := 4, data := Le32(v))
    else t.(data := Le32(v) + if |t.data| > 4 then t.data[4..] else [])
  }

  function WithLongTag(tags: seq<Tag>, id: nat, v: int): seq<Tag> {
    var k := TagIndex(tags, id);
    if k == |tags| then tags + [Tag(id, TYPE_LONG, 1, 4, Le32(v))] else tags[k := LongIn(tags[k], v)]
  }

  function WithLong(ds: seq<Ifd>, nr: nat, id: nat, v: int): seq<Ifd> {
    var k := IfdIndex(ds, nr);
    if k == |ds| then ds + [Ifd(nr, WithLongTag([], id, v))] else ds[k := ds[k].(tags := WithLongTag(ds[k].tags, id, v))]
  }

  predicate HasTag(ds: seq<Ifd>, nr: nat, id: nat) {
    var k := IfdIndex(ds, nr);
    k < |ds| && TagIndex(ds[k].tags, id) < |ds[k].tags|
  }

  function TagOf(ds: seq<Ifd>, nr: nat, id: nat): Tag
    requires HasTag(ds, nr, id)
  {
    var tags := ds[IfdIndex(ds, nr)].tags;
    tags[TagIndex(tags, id)]
  }

  // A tag that holds one long inline, as a pointer must.
  predicate IsPointer(ds: seq<Ifd>, nr: nat, id: nat) {
    HasTag(ds, nr, id) && var t := TagOf(ds, nr, id); LongType(t.typ) && t.count == 1 && t.size == 4 && |t.data| == 4
  }

  function LongAt(ds: seq<Ifd>, nr: nat, id: nat): int
    requires IsPointer(ds, nr, id)
  {
    U32(TagOf(ds, nr, id).data)
  }

  // ---------------------------------------------------------------- the pass

  datatype Place = Place(nr: nat, id: nat)

  // The tag that points to a directory.
  function Home(nr: nat): Option<Place> {
    if nr == GPS_IFD then Some(Place(IFD0, TAG_GPS_IFD))
    else if nr == EXIF_IFD then Some(Place(IFD0, TAG_EXIF_IFD))
    else if nr == INTER_IFD then Some(Place(EXIF_IFD, TAG_INTER_IFD))
    else None
  }

  /** The tags that point to directories, by number: 0x8769 and 0x8825 of the first for the Exif and the GPS directory,
      0xA005 of the Exif directory for interoperability. */
  lemma PointersAre()
    ensures Home(2) == Some(Place(0, 0x8769)) && Home(3) == Some(Place(0, 0x8825)) && Home(4) == Some(Place(2, 0xA005))
    ensures forall nr: nat | nr < 2 || nr > 4 :: Home(nr) == None
  {
  }

  datatype Passed = Passed(ds: seq<Ifd>, len: nat)

  // The pointer to directory k, stored where it belongs.
  function Stored(ds: seq<Ifd>, k: nat, len: nat): (r: seq<Ifd>)
    requires k < |ds|
    ensures |ds| <= |r|
  {
    var home := Home(ds[k].nr);
    if home.Some? then WithLong(ds, home.value.nr, home.value.id, len) else ds
  }

  // The offset is kept in 16 bits.
  function Pass(ds: seq<Ifd>, k: nat, n: nat, len: nat): Passed
    requires k <= n <= |ds|
    decreases n - k
  {
    if k == n then Passed(ds, len)
    else
      var ds' := Stored(ds, k, len);
      Pass(ds', k + 1, n, (len + IfdSize(ds'[k])) % 65536)
  }

  predicate ByNr(d: Ifd, e: Ifd) { d.nr <= e.nr }
  predicate ById(t: Tag, u: Tag) { t.id <= u.id }

  lemma OrdersAreOrders()
    ensures Preorder(ByNr) && Preorder(ById)
  {
  }

  function Started(ds: seq<Ifd>): seq<Ifd> {
    SortBy(WithLong(WithLong(ds, IFD0, TAG_GPS_IFD, 0), GPS_IFD, TAG_GPS_VERSION, 2), ByNr)
  }

  function WithThumbnail(p: Passed): seq<Ifd> {
    if HasTag(p.ds, IFD1, TAG_JPEG_OFFS) then WithLong(p.ds, IFD1, TAG_JPEG_OFFS, (p.len + 4) % 65536) else p.ds
  }

  function SortedTags(ds: seq<Ifd>): (r: seq<Ifd>)
    ensures |r| == |ds| && forall k | 0 <= k < |r| :: r[k] == Ifd(ds[k].nr, SortBy(ds[k].tags, ById))
  {
    seq(|ds|, k requires 0 <= k < |ds| => Ifd(ds[k].nr, SortBy(ds[k].tags, ById)))
  }

  function LaidOut(ds: seq<Ifd>): seq<Ifd> {
    var s := Started(ds);
    SortedTags(WithThumbnail(Pass(s, 0, |s|, 8)))
  }

  // ---------------------------------------------------------------- storing keeps the shape

  predicate SameTag(s: Tag, t: Tag) {
    s.id == t.id && s.typ == t.typ && s.count == t.count && s.size == t.size && |s.data| == |t.data|
  }

  predicate SameTags(a: seq<Tag>, b: seq<Tag>) {
    |a| == |b| && forall i | 0 <= i < |a| :: SameTag(a[i], b[i])
  }

  predicate SameShape(a: seq<Ifd>, b: seq<Ifd>) {
    |a| == |b| && forall k | 0 <= k < |a| :: a[k].nr == b[k].nr && SameTags(a[k].tags, b[k].tags)
  }

  lemma {:induction false} SameRooms(a: seq<Tag>, b: seq<Tag>)
    requires SameTags(a, b)
    ensures TagRooms(a) == TagRooms(b)
  {
    if a != [] {
      var n := |a| - 1;
      SameRooms(a[..n], b[..n]);
      assert SameTag(a[n], b[n]);
    }
  }

  lemma {:induction false} SameStarts(a: seq<Ifd>, b: seq<Ifd>, k: nat)
    requires SameShape(a, b) && k <= |a|
    ensures IfdStart(a, k) == IfdStart(b, k)
    ensures k < |a| ==> IfdSize(a[k]) == IfdSize(b[k])
  {
    if k < |a| { SameRooms(a[k].tags, b[k].tags); }
    if k > 0 { SameStarts(a, b, k - 1); }
  }

  lemma {:induction false} SameTagIndex(a: seq<Tag>, b: seq<Tag>, id: nat)
    requires SameTags(a, b)
    ensures TagIndex(a, id) == TagIndex(b, id)
  {
    if a != [] {
      assert SameTag(a[0], b[0]);
      SameTagIndex(a[1..], b[1..], id);
    }
  }

  lemma {:induction false} SameIfdIndex(a: seq<Ifd>, b: seq<Ifd>, nr: nat)
    requires SameShape(a, b)
    ensures IfdIndex(a, nr) == IfdIndex(b, nr)
  {
    if a != [] {
      SameIfdIndex(a[1..], b[1..], nr);
    }
  }

  lemma SamePointer(a: seq<Ifd>, b: seq<Ifd>, nr: nat, id: nat)
    requires SameShape(a, b)
    ensures IsPointer(a, nr, id) <==> IsPointer(b, nr, id)
  {
    SameIfdIndex(a, b, nr);
    var k := IfdIndex(a, nr);
    if k < |a| {
      SameTagIndex(a[k].tags, b[k].tags, id);
      var i := TagIndex(a[k].tags, id);
      assert i < |a[k].tags| ==> SameTag(a[k].tags[i], b[k].tags[i]);
    }
  }

  lemma SameTrans(a: seq<Ifd>, b: seq<Ifd>, c: seq<Ifd>)
    requires SameShape(a, b) && SameShape(b, c)
    ensures SameShape(a, c)
  {
    forall k | 0 <= k < |a| ensures SameTags(a[k].tags, c[k].tags) {
      forall i | 0 <= i < |a[k].tags| ensures SameTag(a[k].tags[i], c[k].tags[i]) {
        assert SameTag(a[k].tags[i], b[k].tags[i]) && SameTag(b[k].tags[i], c[k].tags[i]);
      }
    }
  }

  /** Storing a pointer changes that pointer and nothing about where anything lies. */
  lemma PutPointer(ds: seq<Ifd>, nr: nat, id: nat, v: int)
    requires IsPointer(ds, nr, id) && 0 <= v < 0x1_0000_0000
    ensures SameShape(ds, WithLong(ds, nr, id, v)) && IsPointer(WithLong(ds, nr, id, v), nr, id)
    ensures LongAt(WithLong(ds, nr, id, v), nr, id) == v
  {
    var r := WithLong(ds, nr, id, v);
    var k := IfdIndex(ds, nr);
    var i := TagIndex(ds[k].tags, id);
    assert LongIn(ds[k].tags[i], v).data == Le32(v);
    SamePointer(ds, r, nr, id);
    SameIfdIndex(ds, r, nr);
    SameTagIndex(ds[k].tags, r[k].tags, id);
    Le32RoundTrip(v);
  }

  lemma PutKeepsOthers(ds: seq<Ifd>, nr: nat, id: nat, v: int, nr': nat, id': nat)
    requires IsPointer(ds, nr, id) && IsPointer(ds, nr', id') && (nr, id) != (nr', id') && 0 <= v < 0x1_0000_0000
    ensures IsPointer(WithLong(ds, nr, id, v), nr', id')
    ensures LongAt(WithLong(ds, nr, id, v), nr', id') == LongAt(ds, nr', id')
  {
    var r := WithLong(ds, nr, id, v);
    PutPointer(ds, nr, id, v);
    SamePointer(ds, r, nr', id');
    SameIfdIndex(ds, r, nr');
    var k := IfdIndex(ds, nr');
    SameTagIndex(ds[k].tags, r[k].tags, id');
  }

  // ---------------------------------------------------------------- the pass sets every pointer

  predicate DistinctNrs(ds: seq<Ifd>) {
    forall i, j | 0 <= i < j < |ds| :: ds[i].nr != ds[j].nr
  }

  // Every directory that needs one has its pointer in place.
  predicate Anchored(ds: seq<Ifd>) {
    forall k | 0 <= k < |ds| :: var h := Home(ds[k].nr); h.Some? ==> IsPointer(ds, h.value.nr, h.value.id)
  }

  // No directory from k on has this as its pointer.
  predicate Unrelated(ds: seq<Ifd>, k: nat, nr: nat, id: nat) {
    forall m | k <= m < |ds| :: Home(ds[m].nr) != Some(Place(nr, id))
  }

  lemma SameAnchored(a: seq<Ifd>, b: seq<Ifd>)
    requires SameShape(a, b) && Anchored(a)
    ensures Anchored(b)
  {
    forall k | 0 <= k < |b| ensures var h := Home(b[k].nr); h.Some? ==> IsPointer(b, h.value.nr, h.value.id) {
      var h := Home(a[k].nr);
      if h.Some? {
        SamePointer(a, b, h.value.nr, h.value.id);
      }
    }
  }

  // One step of the pass.
  lemma OneStep(ds: seq<Ifd>, k: nat, n: nat, len: nat) returns (ds': seq<Ifd>, len': nat)
    requires k < n <= |ds| && Anchored(ds) && len < 65536
    ensures ds' == Stored(ds, k, len) && SameShape(ds, ds') && Anchored(ds')
    ensures len' == (len + IfdSize(ds'[k])) % 65536 && Pass(ds, k, n, len) == Pass(ds', k + 1, n, len')
  {
    ds' := Stored(ds, k, len);
    len' := (len + IfdSize(ds'[k])) % 65536;
    StoredShape(ds, k, len, ds');
    SameAnchored(ds, ds');
    OnePass(ds, k, n, len, ds', len');
  }

  lemma StoredShape(ds: seq<Ifd>, k: nat, len: nat, ds': seq<Ifd>)
    requires k < |ds| && Anchored(ds) && len < 65536 && ds' == Stored(ds, k, len)
    ensures SameShape(ds, ds')
  {
    var home := Home(ds[k].nr);
    if home.Some? {
      PutPointer(ds, home.value.nr, home.value.id, len);
    }
  }

  lemma OnePass(ds: seq<Ifd>, k: nat, n: nat, len: nat, ds': seq<Ifd>, len': nat)
    requires k < n <= |ds| && ds' == Stored(ds, k, len) && len' == (len + IfdSize(ds'[k])) % 65536
    ensures Pass(ds, k, n, len) == Pass(ds', k + 1, n, len')
  {
  }

  // Its offset is the position so far, without what 16 bits do not hold.
  lemma StepIsExact(ds: seq<Ifd>, ds': seq<Ifd>, k: nat, len: nat, len': nat)
    requires k < |ds| && SameShape(ds, ds') && len == IfdStart(ds, k) % 65536
    requires len' == (len + IfdSize(ds'[k])) % 65536
    ensures len' == IfdStart(ds', k + 1) % 65536
  {
    SameStarts(ds, ds', k);
    AddModulo(IfdStart(ds, k), IfdSize(ds'[k]));
  }

  lemma SmallModulo(x: nat)
    requires x < 65536
    ensures x % 65536 == x
  {
  }

  lemma AddModulo(x: nat, y: nat)
    ensures (x % 65536 + y) % 65536 == (x + y) % 65536
  {
  }

  lemma {:induction false} PassKeeps(ds: seq<Ifd>, k: nat, len: nat, nr: nat, id: nat)
    requires k <= |ds| && Anchored(ds) && len < 65536
    ensures var p := Pass(ds, k, |ds|, len);
      && SameShape(ds, p.ds)
      && (IsPointer(ds, nr, id) && Unrelated(ds, k, nr, id) ==> IsPointer(p.ds, nr, id) && LongAt(p.ds, nr, id) == LongAt(ds, nr, id))
    decreases |ds| - k
  {
    if k < |ds| {
      var ds', len' := OneStep(ds, k, |ds|, len);
      StoredKeeps(ds, k, len, nr, id);
      PassKeeps(ds', k + 1, len', nr, id);
      SameTrans(ds, ds', Pass(ds', k + 1, |ds'|, len').ds);
    }
  }

  lemma StoredKeeps(ds: seq<Ifd>, k: nat, len: nat, nr: nat, id: nat)
    requires k < |ds| && Anchored(ds) && len < 65536
    ensures var r := Stored(ds, k, len);
      IsPointer(ds, nr, id) && Unrelated(ds, k, nr, id) ==>
        IsPointer(r, nr, id) && LongAt(r, nr, id) == LongAt(ds, nr, id) && Unrelated(r, k + 1, nr, id)
  {
    var home := Home(ds[k].nr);
    if home.Some? && IsPointer(ds, nr, id) && Unrelated(ds, k, nr, id) {
      PutPointer(ds, home.value.nr, home.value.id, len);
      PutKeepsOthers(ds, home.value.nr, home.value.id, len, nr, id);
    }
  }

  lemma HomeIsUnique(ds: seq<Ifd>, k: nat)
    requires DistinctNrs(ds) && k < |ds| && Home(ds[k].nr).Some?
    ensures Unrelated(ds, k + 1, Home(ds[k].nr).value.nr, Home(ds[k].nr).value.id)
  {
  }

  lemma PassPointsHere(ds: seq<Ifd>, k: nat, len: nat, h: Place)
    requires k < |ds| && Anchored(ds) && DistinctNrs(ds) && Home(ds[k].nr) == Some(h) && len < 65536
    ensures var p := Pass(ds, k, |ds|, len);
      IsPointer(p.ds, h.nr, h.id) && LongAt(p.ds, h.nr, h.id) == len
  {
    var ds', len' := OneStep(ds, k, |ds|, len);
    PutPointer(ds, h.nr, h.id, len);
    HomeIsUnique(ds', k);
    PassKeeps(ds', k + 1, len', h.nr, h.id);
  }

  /** After the pass every pointer holds the position of its directory, without what 16 bits do not hold. */
  lemma {:induction false} PassPoints(ds: seq<Ifd>, k: nat, len: nat, m: nat, h: Place)
    requires k <= m < |ds| && Anchored(ds) && DistinctNrs(ds) && Home(ds[m].nr) == Some(h)
    requires len == IfdStart(ds, k) % 65536
    ensures var p := Pass(ds, k, |ds|, len);
      IsPointer(p.ds, h.nr, h.id) && LongAt(p.ds, h.nr, h.id) == IfdStart(ds, m) % 65536
    decreases |ds| - k
  {
    if m > k {
      var ds', next, len' := StepTo(ds, k, len, m);
      PassPoints(ds', next, len', m, h);
    } else {
      PassPointsHere(ds, k, len, h);
    }
  }

  // A step, seen from a directory behind it.
  lemma StepTo(ds: seq<Ifd>, k: nat, len: nat, m: nat) returns (ds': seq<Ifd>, next: nat, len': nat)
    requires k < m < |ds| && Anchored(ds) && DistinctNrs(ds) && len == IfdStart(ds, k) % 65536
    ensures next == k + 1 && |ds'| == |ds| && Anchored(ds') && DistinctNrs(ds') && len' == IfdStart(ds', next) % 65536
    ensures Pass(ds, k, |ds|, len) == Pass(ds', next, |ds'|, len') && ds'[m].nr == ds[m].nr && IfdStart(ds', m) == IfdStart(ds, m)
  {
    next := k + 1;
    ds', len' := OneStep(ds, k, |ds|, len);
    StepIsExact(ds, ds', k, len, len');
    SameStarts(ds, ds', m);
  }

  lemma {:induction false} PassLength(ds: seq<Ifd>, k: nat, n: nat, len: nat)
    requires k <= n <= |ds| && Anchored(ds) && len == IfdStart(ds, k) % 65536
    ensures Pass(ds, k, n, len).len == IfdStart(ds, n) % 65536
    decreases n - k
  {
    if k < n {
      var ds', len' := OneStep(ds, k, n, len);
      StepIsExact(ds, ds', k, len, len');
      PassLength(ds', k + 1, n, len');
      SameStarts(ds, ds', n);
    }
  }

  // From the first directory on.
  lemma WholePass(s: seq<Ifd>, n: nat, start: nat)
    requires n <= |s| && Anchored(s) && start == 8
    ensures Pass(s, 0, n, start).len == IfdStart(s, n) % 65536
  {
    PassLength(s, 0, n, start);
  }

  lemma WholePassPoints(s: seq<Ifd>, start: nat, m: nat, h: Place)
    requires m < |s| && Anchored(s) && DistinctNrs(s) && Home(s[m].nr) == Some(h) && start == 8
    ensures var d := Pass(s, 0, |s|, start).ds; IsPointer(d, h.nr, h.id) && LongAt(d, h.nr, h.id) == IfdStart(s, m) % 65536
  {
    PassPoints(s, 0, start, m, h);
  }

  lemma WithinBounds(s: seq<Ifd>, m: nat)
    requires m <= |s| && IfdStart(s, |s|) < 65536
    ensures IfdStart(s, m) % 65536 == IfdStart(s, m)
  {
    StartsIncrease(s, m, |s|);
  }

  // ---------------------------------------------------------------- sorting moves tags, not sizes

  predicate DistinctIds(tags: seq<Tag>) {
    forall i, j | 0 <= i < j < |tags| :: tags[i].id != tags[j].id
  }

  predicate AllDistinct(ds: seq<Ifd>) {
    DistinctNrs(ds) && forall k | 0 <= k < |ds| :: DistinctIds(ds[k].tags)
  }

  lemma {:induction false} InsertRooms(q: seq<Tag>, x: Tag)
    ensures TagRooms(InsertBy(q, x, ById)) == TagRooms(q) + TagRoom(x)
  {
    var r := InsertBy(q, x, ById);
    if q != [] && !ById(q[|q| - 1], x) {
      InsertRooms(q[..|q| - 1], x);
      assert r[..|r| - 1] == InsertBy(q[..|q| - 1], x, ById);
    } else {
      assert r[..|r| - 1] == q;
    }
  }

  lemma {:induction false} SortRooms(tags: seq<Tag>)
    ensures TagRooms(SortBy(tags, ById)) == TagRooms(tags)
  {
    if tags != [] {
      SortRooms(tags[..|tags| - 1]);
      InsertRooms(SortBy(tags[..|tags| - 1], ById), tags[|tags| - 1]);
    }
  }

  lemma SortSize(d: Ifd)
    ensures IfdSize(Ifd(d.nr, SortBy(d.tags, ById))) == IfdSize(d)
  {
    SortRooms(d.tags);
  }

  // The same sizes give the same positions.
  lemma {:induction false} EqualStarts(a: seq<Ifd>, b: seq<Ifd>, k: nat)
    requires |a| == |b| && k <= |a| && forall i | 0 <= i < |a| :: IfdSize(a[i]) == IfdSize(b[i])
    ensures IfdStart(a, k) == IfdStart(b, k)
  {
    if k > 0 {
      EqualStarts(a, b, k - 1);
    }
  }

  lemma SortStarts(ds: seq<Ifd>, k: nat)
    requires k <= |ds|
    ensures IfdStart(SortedTags(ds), k) == IfdStart(ds, k)
  {
    var r := SortedTags(ds);
    forall i | 0 <= i < |r| ensures IfdSize(r[i]) == IfdSize(ds[i]) {
      SortSize(ds[i]);
    }
    EqualStarts(r, ds, k);
  }

  // A tag is found among permuted tags, and it is the same one.
  lemma TagPermuted(a: seq<Tag>, b: seq<Tag>, id: nat)
    requires multiset(a) == multiset(b) && DistinctIds(a)
    ensures |a| == |b|
    ensures TagIndex(a, id) < |a| <==> TagIndex(b, id) < |b|
    ensures TagIndex(a, id) < |a| ==> a[TagIndex(a, id)] == b[TagIndex(b, id)]
  {
    assert |multiset(a)| == |a| && |multiset(b)| == |b|;
    var i, j := TagIndex(a, id), TagIndex(b, id);
    if i < |a| {
      assert a[i] in multiset(b);
      var k :| 0 <= k < |b| && b[k] == a[i];
    }
    if j < |b| {
      assert b[j] in multiset(a);
      var k :| 0 <= k < |a| && a[k] == b[j];
    }
  }

  lemma {:induction false} SortedIfdIndex(ds: seq<Ifd>, nr: nat)
    ensures IfdIndex(SortedTags(ds), nr) == IfdIndex(ds, nr)
  {
    if ds != [] {
      SortedIfdIndex(ds[1..], nr);
      assert SortedTags(ds)[1..] == SortedTags(ds[1..]);
    }
  }

  lemma SortedPointer(ds: seq<Ifd>, nr: nat, id: nat)
    requires AllDistinct(ds)
    ensures IsPointer(SortedTags(ds), nr, id) <==> IsPointer(ds, nr, id)
    ensures IsPointer(ds, nr, id) ==> LongAt(SortedTags(ds), nr, id) == LongAt(ds, nr, id)
  {
    SortedIfdIndex(ds, nr);
    var k := IfdIndex(ds, nr);
    if k < |ds| {
      TagPermuted(ds[k].tags, SortBy(ds[k].tags, ById), id);
    }
  }

  lemma SameDistinct(a: seq<Ifd>, b: seq<Ifd>)
    requires SameShape(a, b) && AllDistinct(a)
    ensures AllDistinct(b)
  {
    forall k | 0 <= k < |b| ensures DistinctIds(b[k].tags) {
      forall i, j | 0 <= i < j < |b[k].tags| ensures b[k].tags[i].id != b[k].tags[j].id {
        assert SameTag(a[k].tags[i], b[k].tags[i]) && SameTag(a[k].tags[j], b[k].tags[j]);
      }
    }
  }

  // ---------------------------------------------------------------- the layout as a whole

  // What the pass may start from: pointers in place, room for 16-bit offsets.
  predicate Ready(s: seq<Ifd>) {
    && AllDistinct(s) && Anchored(s) && IfdStart(s, |s|) + 4 < 65536
    && (HasTag(s, IFD1, TAG_JPEG_OFFS) ==> IsPointer(s, IFD1, TAG_JPEG_OFFS))
  }

  lemma SameHasTag(a: seq<Ifd>, b: seq<Ifd>, nr: nat, id: nat)
    requires SameShape(a, b)
    ensures HasTag(a, nr, id) <==> HasTag(b, nr, id)
  {
    SameIfdIndex(a, b, nr);
    var k := IfdIndex(a, nr);
    if k < |a| {
      SameTagIndex(a[k].tags, b[k].tags, id);
    }
  }

  lemma PassFacts(s: seq<Ifd>, p: Passed)
    requires Ready(s) && p == Pass(s, 0, |s|, 8)
    ensures SameShape(s, p.ds) && p.len == IfdStart(s, |s|)
  {
    PassKeeps(s, 0, 8, IFD1, TAG_JPEG_OFFS);
    WholePass(s, |s|, 8);
    WithinBounds(s, |s|);
  }

  lemma PutInShape(s: seq<Ifd>, d: seq<Ifd>, nr: nat, id: nat, v: int)
    requires SameShape(s, d) && IsPointer(d, nr, id) && 0 <= v < 65536
    ensures var t := WithLong(d, nr, id, v); SameShape(s, t) && IsPointer(t, nr, id) && LongAt(t, nr, id) == v
  {
    PutPointer(d, nr, id, v);
    SameTrans(s, d, WithLong(d, nr, id, v));
  }

  // What comes out of the pass, with the thumbnail's pointer still to be stored.
  ghost predicate Settled(s: seq<Ifd>, d: seq<Ifd>, len: nat) {
    && Ready(s) && SameShape(s, d) && len == IfdStart(s, |s|) && len + 4 < 65536
    && (HasTag(d, IFD1, TAG_JPEG_OFFS) <==> HasTag(s, IFD1, TAG_JPEG_OFFS))
    && (HasTag(d, IFD1, TAG_JPEG_OFFS) ==> IsPointer(d, IFD1, TAG_JPEG_OFFS))
  }

  lemma PassSettles(s: seq<Ifd>, p: Passed)
    requires Ready(s) && p == Pass(s, 0, |s|, 8)
    ensures Settled(s, p.ds, p.len)
  {
    PassFacts(s, p);
    SamePointer(s, p.ds, IFD1, TAG_JPEG_OFFS);
    SameHasTag(s, p.ds, IFD1, TAG_JPEG_OFFS);
  }

  // The thumbnail's pointer is stored behind the pass.
  lemma ThumbnailStored(s: seq<Ifd>, d: seq<Ifd>, len: nat, t: seq<Ifd>)
    requires Settled(s, d, len) && t == WithThumbnail(Passed(d, len))
    ensures SameShape(s, t)
    ensures HasTag(s, IFD1, TAG_JPEG_OFFS) ==> IsPointer(t, IFD1, TAG_JPEG_OFFS) && LongAt(t, IFD1, TAG_JPEG_OFFS) == len + 4
  {
    var v := (len + 4) % 65536;
    SmallModulo(len + 4);
    if HasTag(d, IFD1, TAG_JPEG_OFFS) {
      PutInShape(s, d, IFD1, TAG_JPEG_OFFS, v);
    }
  }

  // It disturbs no other.
  lemma ThumbnailKeeps(s: seq<Ifd>, d: seq<Ifd>, len: nat, t: seq<Ifd>, h: Place)
    requires Settled(s, d, len) && t == WithThumbnail(Passed(d, len))
    requires IsPointer(d, h.nr, h.id) && h != Place(IFD1, TAG_JPEG_OFFS)
    ensures IsPointer(t, h.nr, h.id) && LongAt(t, h.nr, h.id) == LongAt(d, h.nr, h.id)
  {
    var v := (len + 4) % 65536;
    SmallModulo(len + 4);
    if HasTag(d, IFD1, TAG_JPEG_OFFS) {
      PutKeepsOthers(d, IFD1, TAG_JPEG_OFFS, v, h.nr, h.id);
    }
  }

  ghost predicate PointsAt(r: seq<Ifd>, m: nat, h: Place)
    requires m <= |r|
  {
    IsPointer(r, h.nr, h.id) && LongAt(r, h.nr, h.id) == IfdStart(r, m)
  }

  // Every directory pointer holds its directory's position.
  ghost predicate Points(r: seq<Ifd>) {
    forall m, h | 0 <= m < |r| && Home(r[m].nr) == Some(h) :: PointsAt(r, m, h)
  }

  // The thumbnail's pointer, if there is one, leads four bytes behind the directories.
  ghost predicate PointsToThumbnail(r: seq<Ifd>) {
    IsPointer(r, IFD1, TAG_JPEG_OFFS) ==> LongAt(r, IFD1, TAG_JPEG_OFFS) == IfdStart(r, |r|) + 4
  }

  /** Every directory pointer, and the pointer to the thumbnail, holds the position that its target has
      in the directories as they are written. */
  lemma LayoutPoints(ds: seq<Ifd>)
    requires Ready(Started(ds))
    ensures AllDistinct(LaidOut(ds)) && Points(LaidOut(ds)) && PointsToThumbnail(LaidOut(ds))
    ensures |LaidOut(ds)| == |Started(ds)|
    ensures IfdStart(LaidOut(ds), |LaidOut(ds)|) == IfdStart(Started(ds), |Started(ds)|)
  {
    var s := Started(ds);
    LayoutPointsFrom(s, Pass(s, 0, |s|, 8));
  }

  lemma LayoutPointsFrom(s: seq<Ifd>, p: Passed)
    requires Ready(s) && p == Pass(s, 0, |s|, 8)
    ensures var r := SortedTags(WithThumbnail(p));
      AllDistinct(r) && Points(r) && PointsToThumbnail(r) && |r| == |s| && IfdStart(r, |r|) == IfdStart(s, |s|)
  {
    var t := WithThumbnail(p);
    PassSettles(s, p);
    ThumbnailStored(s, p.ds, p.len, t);
    SameDistinct(s, t);
    SameStarts(s, t, |t|);
    SameHasTag(s, t, IFD1, TAG_JPEG_OFFS);
    forall m, h | 0 <= m < |t| && Home(t[m].nr) == Some(h) ensures PointsAt(t, m, h) {
      SettledPoint(s, p, t, m, h);
    }
    SortingKeepsPoints(t, SortedTags(t));
  }

  lemma SettledPoint(s: seq<Ifd>, p: Passed, t: seq<Ifd>, m: nat, h: Place)
    requires Ready(s) && p == Pass(s, 0, |s|, 8) && Settled(s, p.ds, p.len) && t == WithThumbnail(p) && SameShape(s, t)
    requires m < |s| && Home(s[m].nr) == Some(h)
    ensures PointsAt(t, m, h)
  {
    PassedPoint(s, p, m, h);
    ThumbnailPoint(s, p.ds, p.len, t, m, h);
  }

  lemma PassedPoint(s: seq<Ifd>, p: Passed, m: nat, h: Place)
    requires Ready(s) && p == Pass(s, 0, |s|, 8) && m < |s| && Home(s[m].nr) == Some(h)
    ensures HomeOf(s, p.ds, m, h)
  {
    WholePassPoints(s, 8, m, h);
    WithinBounds(s, m);
    HomeIsElsewhere(s[m].nr, h);
  }

  lemma HomeIsElsewhere(nr: nat, h: Place)
    requires Home(nr) == Some(h)
    ensures h != Place(IFD1, TAG_JPEG_OFFS)
  {
  }

  // Place h of d holds the position of directory m, and it is not where the thumbnail's stands.
  ghost predicate HomeOf(s: seq<Ifd>, d: seq<Ifd>, m: nat, h: Place) {
    m < |s| && h != Place(IFD1, TAG_JPEG_OFFS) && IsPointer(d, h.nr, h.id) && LongAt(d, h.nr, h.id) == IfdStart(s, m)
  }

  lemma ThumbnailPoint(s: seq<Ifd>, d: seq<Ifd>, len: nat, t: seq<Ifd>, m: nat, h: Place)
    requires Settled(s, d, len) && t == WithThumbnail(Passed(d, len)) && SameShape(s, t) && HomeOf(s, d, m, h)
    ensures PointsAt(t, m, h)
  {
    ThumbnailKeeps(s, d, len, t, h);
    SameStarts(s, t, m);
  }

  // ---------------------------------------------------------------- positions as the pass takes them

  // What the pass may start from, whatever the sizes.
  predicate Startable(s: seq<Ifd>) {
    Anchored(s) && AllWritable(s) && (HasTag(s, IFD1, TAG_JPEG_OFFS) ==> IsPointer(s, IFD1, TAG_JPEG_OFFS))
  }

  lemma SameWritable(a: seq<Ifd>, b: seq<Ifd>)
    requires SameShape(a, b) && AllWritable(a)
    ensures AllWritable(b)
  {
    forall k | 0 <= k < |b| ensures Writable(b[k].tags) {
      forall i | 0 <= i < |b[k].tags| ensures SameTag(a[k].tags[i], b[k].tags[i]) {
      }
    }
  }

  lemma SortedWritable(ds: seq<Ifd>)
    requires AllWritable(ds)
    ensures AllWritable(SortedTags(ds))
  {
    var r := SortedTags(ds);
    forall k, i | 0 <= k < |r| && 0 <= i < |r[k].tags| ensures r[k].tags[i] in ds[k].tags {
      assert r[k].tags[i] in multiset(r[k].tags);
    }
  }

  lemma ThumbnailShape(s: seq<Ifd>, p: Passed)
    requires Startable(s) && p == Pass(s, 0, |s|, 8)
    ensures SameShape(s, WithThumbnail(p))
  {
    PassKeeps(s, 0, 8, IFD1, TAG_JPEG_OFFS);
    SamePointer(s, p.ds, IFD1, TAG_JPEG_OFFS);
    SameHasTag(s, p.ds, IFD1, TAG_JPEG_OFFS);
    var v := (p.len + 4) % 65536;
    ThumbnailPut(s, p, v);
  }

  lemma ThumbnailPut(s: seq<Ifd>, p: Passed, v: nat)
    requires SameShape(s, p.ds) && v == (p.len + 4) % 65536
    requires HasTag(p.ds, IFD1, TAG_JPEG_OFFS) ==> IsPointer(p.ds, IFD1, TAG_JPEG_OFFS)
    ensures SameShape(s, WithThumbnail(p))
  {
    if HasTag(p.ds, IFD1, TAG_JPEG_OFFS) {
      PutInShape(s, p.ds, IFD1, TAG_JPEG_OFFS, v);
    }
  }

  // Laying out moves no directory.
  lemma LaidOutStarts(ds: seq<Ifd>, k: nat)
    requires Startable(Started(ds)) && k <= |Started(ds)|
    ensures AllWritable(LaidOut(ds)) && |LaidOut(ds)| == |Started(ds)| && IfdStart(LaidOut(ds), k) == IfdStart(Started(ds), k)
  {
    var s := Started(ds);
    var p := Pass(s, 0, |s|, 8);
    var t := WithThumbnail(p);
    ThumbnailShape(s, p);
    SameWritable(s, t);
    SortedWritable(t);
    SameStarts(s, t, k);
    SortStarts(t, k);
  }

  /** The offset the pass has for directory k is the end of the directories before it as they are written
      exactly if the sum of their sizes is below 65536, all their values being written, and exactly if they are, as long
      as 16 bits hold the sum of the sizes. */
  lemma PassedIsWritten(be: bool, ds: seq<Ifd>, k: nat)
    requires Startable(Started(ds)) && k <= |Started(ds)|
    ensures AllWritable(LaidOut(ds)) && |LaidOut(ds)| == |Started(ds)|
    ensures var r, len := DirsOf(be, LaidOut(ds)), Pass(Started(ds), 0, k, 8).len;
      && (WrittenUpTo(r, k) ==> (|Body(be, r, k)| == len <==> Start(r, k) < 65536))
      && (Start(r, k) < 65536 ==> (|Body(be, r, k)| == len <==> WrittenUpTo(r, k)))
  {
    LaidOutStarts(ds, k);
    WholePass(Started(ds), k, 8);
    WrittenEnd(be, LaidOut(ds), k, Pass(Started(ds), 0, k, 8).len);
  }

  lemma WrittenEnd(be: bool, ds: seq<Ifd>, k: nat, len: nat)
    requires AllWritable(ds) && k <= |ds| && len == IfdStart(ds, k) % 65536
    ensures var r := DirsOf(be, ds);
      && (WrittenUpTo(r, k) ==> (|Body(be, r, k)| == len <==> Start(r, k) < 65536))
      && (Start(r, k) < 65536 ==> (|Body(be, r, k)| == len <==> WrittenUpTo(r, k)))
  {
    var r := DirsOf(be, ds);
    StartsAreStarts(be, ds, k);
    BodyEndsAtStart(be, r, k);
    Wrapped(|Body(be, r, k)|, Start(r, k), len, WrittenUpTo(r, k));
  }

  lemma Wrapped(end: nat, start: nat, len: nat, written: bool)
    requires end <= start && (end == start <==> written) && len == start % 65536
    ensures written ==> (end == len <==> start < 65536)
    ensures start < 65536 ==> (end == len <==> written)
  {
  }

  /** Two values of 40000 bytes take the GPS directory behind them to 80050, and its pointer to 14514. */
  lemma LongValuesOverflow(v: seq<Byte>)
    requires |v| == 40000
    ensures var s := [Ifd(IFD0, [Tag(1, 1, 40000, 40000, v), Tag(2, 1, 40000, 40000, v), Tag(TAG_GPS_IFD, TYPE_LONG, 1, 4, Le32(0))]),
                      Ifd(GPS_IFD, [Tag(TAG_GPS_VERSION, TYPE_LONG, 1, 4, Le32(2))])];
      && AllWritable(s) && IfdStart(s, 1) == 80050
      && var d := Pass(s, 0, 2, 8).ds; IsPointer(d, IFD0, TAG_GPS_IFD) && LongAt(d, IFD0, TAG_GPS_IFD) == 14514
  {
    var a, b, c := Tag(1, 1, 40000, 40000, v), Tag(2, 1, 40000, 40000, v), Tag(TAG_GPS_IFD, TYPE_LONG, 1, 4, Le32(0));
    var s := [Ifd(IFD0, [a, b, c]), Ifd(GPS_IFD, [Tag(TAG_GPS_VERSION, TYPE_LONG, 1, 4, Le32(2))])];
    LongRooms(a, b, c);
    assert IfdStart(s, 1) == 80050;
    assert IfdIndex(s, IFD0) == 0;
    ThirdTag(a, b, c);
    WholePassPoints(s, 8, 1, Place(IFD0, TAG_GPS_IFD));
  }

  lemma LongRooms(a: Tag, b: Tag, c: Tag)
    requires a.size == 40000 && b.size == 40000 && c.size == 4
    ensures TagRooms([a, b, c]) == 80000
  {
    assert [a, b, c][..2] == [a, b] && [a, b][..1] == [a] && [a][..0] == [];
    assert TagRooms([a]) == 40000 && TagRooms([a, b]) == 80000;
  }

  lemma ThirdTag(a: Tag, b: Tag, c: Tag)
    requires a.id != c.id && b.id != c.id
    ensures TagIndex([a, b, c], c.id) == 2
  {
    assert [a, b, c][2].id == c.id;
  }

  lemma SortingKeepsPoints(t: seq<Ifd>, r: seq<Ifd>)
    requires AllDistinct(t) && Points(t) && PointsToThumbnail(t) && r == SortedTags(t)
    ensures AllDistinct(r) && Points(r) && PointsToThumbnail(r) && |r| == |t| && IfdStart(r, |r|) == IfdStart(t, |t|)
  {
    SortedDistinct(t);
    SortStarts(t, |t|);
    SortedPointer(t, IFD1, TAG_JPEG_OFFS);
    forall m, h | 0 <= m < |r| && Home(r[m].nr) == Some(h) ensures PointsAt(r, m, h) {
      assert PointsAt(t, m, h);
      SortedPoint(t, r, m, h);
    }
  }

  lemma SortedPoint(t: seq<Ifd>, r: seq<Ifd>, m: nat, h: Place)
    requires AllDistinct(t) && r == SortedTags(t) && m < |t| && PointsAt(t, m, h)
    ensures PointsAt(r, m, h)
  {
    SortedPointer(t, h.nr, h.id);
    SortStarts(t, m);
  }

  lemma SortedDistinct(ds: seq<Ifd>)
    requires AllDistinct(ds)
    ensures AllDistinct(SortedTags(ds))
  {
    forall k | 0 <= k < |ds| ensures DistinctIds(SortBy(ds[k].tags, ById)) {
      SortDistinct(ds[k].tags);
    }
  }

  lemma {:induction false} SortDistinct(tags: seq<Tag>)
    requires DistinctIds(tags)
    ensures DistinctIds(SortBy(tags, ById))
  {
    if tags != [] {
      var n := |tags| - 1;
      SortDistinct(tags[..n]);
      var s := SortBy(tags[..n], ById);
      forall i | 0 <= i < |s| ensures s[i].id != tags[n].id {
        assert s[i] in multiset(tags[..n]);
        assert s[i] in tags[..n];
      }
      InsertDistinct(s, tags[n]);
    }
  }

  lemma {:induction false} InsertDistinct(q: seq<Tag>, x: Tag)
    requires DistinctIds(q) && forall i | 0 <= i < |q| :: q[i].id != x.id
    ensures DistinctIds(InsertBy(q, x, ById))
    ensures forall i | 0 <= i < |q| + 1 :: InsertBy(q, x, ById)[i] == x || InsertBy(q, x, ById)[i] in q
  {
    if q != [] && !ById(q[|q| - 1], x) {
      var n := |q| - 1;
      InsertDistinct(q[..n], x);
      var r := InsertBy(q[..n], x, ById);
      forall i | 0 <= i < |r| ensures r[i].id != q[n].id && (r[i] == x || r[i] in q) {
        assert r[i] == x || r[i] in q[..n];
      }
    }
  }
}
