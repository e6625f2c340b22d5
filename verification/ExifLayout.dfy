// Where the pieces of an Exif segment lie: the sizes one pass computes and the bytes another writes.
// A tag counts here by the bytes it contributes only.
module ExifLayout {
  import opened Bytes

  // An entry's first eight bytes, then its value inline, or out of line with the size its tag claims.
  datatype Piece = Near(head: seq<Byte>, value: seq<Byte>) | Far(head: seq<Byte>, size: nat, value: seq<Byte>)

  datatype Dir = Dir(nr: nat, tags: seq<Piece>)

  const IFD0 := 0
  const IFD1 := 1

  // An out-of-line value is written in full or, when its type falls into the writer's default branch, not at all.
  predicate PieceOk(p: Piece) {
    |p.head| == 8 && match p
      case Near(_, v) => |v| == 4
      case Far(_, n, v) => n > 4 && (|v| == n || v == [])
  }

  predicate Written(p: Piece) {
    p.Far? ==> |p.value| == p.size
  }

  predicate TagsOk(tags: seq<Piece>) {
    forall i | 0 <= i < |tags| :: PieceOk(tags[i])
  }

  predicate AllWritten(tags: seq<Piece>) {
    forall i | 0 <= i < |tags| :: Written(tags[i])
  }

  function Even(n: nat): (r: nat)
    ensures r % 2 == 0 && n <= r <= n + 1
  {
    n + n % 2
  }

  function Room(p: Piece): nat {
    if p.Far? then Even(p.size) else 0
  }

  // The room behind a directory's entries.
  function Rooms(tags: seq<Piece>): (r: nat)
    ensures r % 2 == 0
  {
    if tags == [] then 0 else Rooms(tags[..|tags| - 1]) + Room(tags[|tags| - 1])
  }

  // exif_ifd_size
  function DirSize(d: Dir): (r: nat)
    ensures r % 2 == 0
  {
    6 + 12 * |d.tags| + Rooms(d.tags)
  }

  // ---------------------------------------------------------------- byte order

  function Reversed(s: seq<Byte>): (r: seq<Byte>)
    ensures |r| == |s|
  {
    if s == [] then [] else Reversed(s[1..]) + [s[0]]
  }

  function Swap(be: bool, s: seq<Byte>): (r: seq<Byte>)
    ensures |r| == |s|
  {
    if be then Reversed(s) else s
  }

  function Put16(be: bool, x: int): (r: seq<Byte>)
    ensures |r| == 2
  {
    Swap(be, Le16(x))
  }

  function Put32(be: bool, x: int): (r: seq<Byte>)
    ensures |r| == 4
  {
    Swap(be, Le32(x))
  }

  // ---------------------------------------------------------------- the bytes of one directory

  function Entry(be: bool, p: Piece, offs: nat): (r: seq<Byte>)
    requires PieceOk(p)
    ensures |r| == 12
  {
    p.head + (if p.Far? then Put32(be, offs) else p.value)
  }

  // The entries, the first out-of-line value going to `base`.
  function Entries(be: bool, tags: seq<Piece>, base: nat): (r: seq<Byte>)
    requires TagsOk(tags)
    ensures |r| == 12 * |tags|
  {
    if tags == [] then []
    else Entries(be, tags[..|tags| - 1], base) + Entry(be, tags[|tags| - 1], base + Rooms(tags[..|tags| - 1]))
  }

  function Padding(n: nat): (r: seq<Byte>)
    ensures |r| == n % 2
  {
    if n % 2 == 1 then [0] else []
  }

  // A value out of line, with the byte that makes the position even again.
  function Payload(p: Piece): (r: seq<Byte>)
    ensures PieceOk(p) ==> |r| == if Written(p) then Room(p) else 0
  {
    if p.Far? then p.value + Padding(|p.value|) else []
  }

  function Payloads(tags: seq<Piece>): seq<Byte> {
    if tags == [] then [] else Payloads(tags[..|tags| - 1]) + Payload(tags[|tags| - 1])
  }

  // Where the values of a directory at position `at` begin.
  function Base(at: nat, n: nat): nat {
    at + 6 + 12 * n
  }

  function DirBytes(be: bool, d: Dir, at: nat, next: bool): seq<Byte>
    requires TagsOk(d.tags)
  {
    var base := Base(at, |d.tags|);
    Put16(be, |d.tags|) + Entries(be, d.tags, base) + Put32(be, if next then base + Rooms(d.tags) else 0) + Payloads(d.tags)
  }

  // ---------------------------------------------------------------- sizes agree

  lemma {:induction false} PayloadsFill(tags: seq<Piece>)
    requires TagsOk(tags)
    ensures |Payloads(tags)| <= Rooms(tags)
    ensures |Payloads(tags)| == Rooms(tags) <==> AllWritten(tags)
  {
    if tags != [] {
      var n := |tags| - 1;
      PayloadsFill(tags[..n]);
      LastWritten(tags, n);
    }
  }

  lemma LastWritten(tags: seq<Piece>, n: nat)
    requires |tags| == n + 1
    ensures AllWritten(tags) <==> AllWritten(tags[..n]) && Written(tags[n])
  {
    if AllWritten(tags[..n]) && Written(tags[n]) {
      forall i | 0 <= i < |tags| ensures Written(tags[i]) {
        if i < n { assert tags[..n][i] == tags[i]; }
      }
    }
  }

  /** A directory takes the bytes the size pass foresaw exactly if all its out-of-line values are written;
      with one that the default branch puts elsewhere it falls short. */
  lemma DirFillsItsSize(be: bool, d: Dir, at: nat, next: bool)
    requires TagsOk(d.tags)
    ensures |DirBytes(be, d, at, next)| <= DirSize(d)
    ensures |DirBytes(be, d, at, next)| == DirSize(d) <==> AllWritten(d.tags)
  {
    PayloadsFill(d.tags);
  }

  // ---------------------------------------------------------------- the whole segment

  predicate DirsOk(ds: seq<Dir>) {
    forall i | 0 <= i < |ds| :: TagsOk(ds[i].tags)
  }

  predicate DirsWritten(ds: seq<Dir>) {
    forall i | 0 <= i < |ds| :: AllWritten(ds[i].tags)
  }

  // Where directory k begins, as the offset pass adds it up.
  function Start(ds: seq<Dir>, k: nat): (r: nat)
    requires k <= |ds|
    ensures r >= 8 && r % 2 == 0
  {
    if k == 0 then 8 else Start(ds, k - 1) + DirSize(ds[k - 1])
  }

  // Only the first directory points on, to the thumbnail's right behind it.
  predicate HasNext(ds: seq<Dir>, k: nat)
    requires k < |ds|
  {
    ds[k].nr == IFD0 && k + 1 < |ds| && ds[k + 1].nr == IFD1
  }

  function Header(be: bool): (r: seq<Byte>)
    ensures |r| == 8
  {
    (if be then ['M' as int, 'M' as int] else ['I' as int, 'I' as int]) + Put16(be, 0x2A) + Put32(be, 8)
  }

  // The first k directories, each written where the stream stands.
  function Body(be: bool, ds: seq<Dir>, k: nat): seq<Byte>
    requires DirsOk(ds) && k <= |ds|
  {
    if k == 0 then Header(be)
    else
      var front := Body(be, ds, k - 1);
      front + DirBytes(be, ds[k - 1], |front|, HasNext(ds, k - 1))
  }

  // The segment: the directories, a zero word behind the last, the thumbnail.
  function Segment(be: bool, ds: seq<Dir>, thumb: seq<Byte>): seq<Byte>
    requires DirsOk(ds)
  {
    Body(be, ds, |ds|) + Put32(be, 0) + thumb
  }

  // The first k directories have all their values.
  predicate WrittenUpTo(ds: seq<Dir>, k: nat)
    requires k <= |ds|
  {
    forall i | 0 <= i < k :: AllWritten(ds[i].tags)
  }

  lemma OneMoreWritten(ds: seq<Dir>, k: nat)
    requires k < |ds|
    ensures WrittenUpTo(ds, k + 1) <==> WrittenUpTo(ds, k) && AllWritten(ds[k].tags)
  {
  }

  // One more directory: its bytes, against the size the offset pass adds.
  lemma BodyGrows(be: bool, ds: seq<Dir>, k: nat) returns (more: nat)
    requires DirsOk(ds) && k < |ds|
    ensures |Body(be, ds, k + 1)| == |Body(be, ds, k)| + more && Start(ds, k + 1) == Start(ds, k) + DirSize(ds[k])
    ensures more <= DirSize(ds[k]) && (more == DirSize(ds[k]) <==> AllWritten(ds[k].tags))
  {
    var at := |Body(be, ds, k)|;
    DirFillsItsSize(be, ds[k], at, HasNext(ds, k));
    more := |DirBytes(be, ds[k], at, HasNext(ds, k))|;
  }

  /** The first k directories end where the offset pass says exactly if all their values are written. */
  lemma {:induction false} BodyEndsAtStart(be: bool, ds: seq<Dir>, k: nat)
    requires DirsOk(ds) && k <= |ds|
    ensures |Body(be, ds, k)| <= Start(ds, k)
    ensures |Body(be, ds, k)| == Start(ds, k) <==> WrittenUpTo(ds, k)
  {
    if k > 0 {
      var m := k - 1;
      BodyEndsAtStart(be, ds, m);
      var more := BodyGrows(be, ds, m);
      OneMoreWritten(ds, m);
    }
  }

  // What the first k directories are made of stays when more follow.
  lemma {:induction false} AtBody(be: bool, ds: seq<Dir>, k: nat, n: nat, pos: int, r: seq<Byte>)
    requires DirsOk(ds) && k <= n <= |ds| && At(Body(be, ds, k), pos, r)
    ensures At(Body(be, ds, n), pos, r)
    decreases n
  {
    if k < n {
      AtBody(be, ds, k, n - 1, pos, r);
      var front := Body(be, ds, n - 1);
      AtFront(front, DirBytes(be, ds[n - 1], |front|, HasNext(ds, n - 1)), pos, r);
    }
  }

  lemma AtSegment(be: bool, ds: seq<Dir>, thumb: seq<Byte>, pos: int, r: seq<Byte>)
    requires DirsOk(ds) && At(Body(be, ds, |ds|), pos, r)
    ensures At(Segment(be, ds, thumb), pos, r)
  {
    var b := Body(be, ds, |ds|);
    AtFront(b, Put32(be, 0), pos, r);
    AtFront(b + Put32(be, 0), thumb, pos, r);
  }

  lemma EndsAtStart(be: bool, ds: seq<Dir>, k: nat)
    requires DirsOk(ds) && DirsWritten(ds) && k <= |ds|
    ensures |Body(be, ds, k)| == Start(ds, k)
  {
    BodyEndsAtStart(be, ds, k);
  }

  lemma DirBehind(be: bool, ds: seq<Dir>, k: nat, at: nat)
    requires DirsOk(ds) && k < |ds| && |Body(be, ds, k)| == at
    ensures At(Body(be, ds, k + 1), at, DirBytes(be, ds[k], at, HasNext(ds, k)))
  {
    AtEnd(Body(be, ds, k), DirBytes(be, ds[k], at, HasNext(ds, k)));
  }

  /** Every directory begins where the offset pass says. */
  lemma DirAtStart(be: bool, ds: seq<Dir>, thumb: seq<Byte>, k: nat)
    requires DirsOk(ds) && DirsWritten(ds) && k < |ds|
    ensures At(Segment(be, ds, thumb), Start(ds, k), DirBytes(be, ds[k], Start(ds, k), HasNext(ds, k)))
  {
    var at, next := Start(ds, k), k + 1;
    var bytes := DirBytes(be, ds[k], at, HasNext(ds, k));
    EndsAtStart(be, ds, k);
    DirBehind(be, ds, k, at);
    AtBody(be, ds, next, |ds|, at, bytes);
    AtSegment(be, ds, thumb, at, bytes);
  }

  /** The thumbnail lies four bytes behind the last directory. */
  lemma ThumbnailAt(be: bool, ds: seq<Dir>, thumb: seq<Byte>)
    requires DirsOk(ds) && DirsWritten(ds)
    ensures At(Segment(be, ds, thumb), Start(ds, |ds|) + 4, thumb)
  {
    var n := |ds|;
    EndsAtStart(be, ds, n);
    BehindWord(Body(be, ds, n), Put32(be, 0), thumb, Start(ds, n));
  }

  lemma BehindWord(b: seq<Byte>, w: seq<Byte>, thumb: seq<Byte>, n: nat)
    requires |b| == n && |w| == 4
    ensures At(b + w + thumb, n + 4, thumb)
  {
    AtEnd(b + w, thumb);
  }

  // ---------------------------------------------------------------- values inside a directory

  // The offset written for tag j of a directory.
  function ValueOffset(at: nat, tags: seq<Piece>, j: nat): nat
    requires j < |tags|
  {
    Base(at, |tags|) + Rooms(tags[..j])
  }

  lemma LastEntry(be: bool, tags: seq<Piece>, base: nat, n: nat, offs: nat, pos: nat)
    requires TagsOk(tags) && |tags| == n + 1 && offs == base + Rooms(tags[..n]) && pos == 12 * n
    ensures At(Entries(be, tags, base), pos, Entry(be, tags[n], offs))
  {
    AtEnd(Entries(be, tags[..n], base), Entry(be, tags[n], offs));
  }

  lemma EntryBefore(be: bool, tags: seq<Piece>, base: nat, n: nat, pos: nat, r: seq<Byte>)
    requires TagsOk(tags) && |tags| == n + 1 && At(Entries(be, tags[..n], base), pos, r)
    ensures At(Entries(be, tags, base), pos, r)
  {
    AtFront(Entries(be, tags[..n], base), Entry(be, tags[n], base + Rooms(tags[..n])), pos, r);
  }

  lemma {:induction false} EntryAt(be: bool, tags: seq<Piece>, base: nat, j: nat, offs: nat, pos: nat)
    requires TagsOk(tags) && j < |tags| && offs == base + Rooms(tags[..j]) && pos == 12 * j
    ensures At(Entries(be, tags, base), pos, Entry(be, tags[j], offs))
  {
    var n := |tags| - 1;
    if j < n {
      assert tags[..n][..j] == tags[..j];
      EntryAt(be, tags[..n], base, j, offs, pos);
      EntryBefore(be, tags, base, n, pos, Entry(be, tags[j], offs));
    } else {
      LastEntry(be, tags, base, n, offs, pos);
    }
  }

  lemma LastPayload(tags: seq<Piece>, n: nat, pos: nat)
    requires TagsOk(tags) && AllWritten(tags) && |tags| == n + 1 && pos == Rooms(tags[..n])
    ensures At(Payloads(tags), pos, Payload(tags[n]))
  {
    LastWritten(tags, n);
    PayloadsFill(tags[..n]);
    AtEnd(Payloads(tags[..n]), Payload(tags[n]));
  }

  lemma PayloadBefore(tags: seq<Piece>, n: nat, pos: nat, r: seq<Byte>)
    requires |tags| == n + 1 && At(Payloads(tags[..n]), pos, r)
    ensures At(Payloads(tags), pos, r)
  {
    AtFront(Payloads(tags[..n]), Payload(tags[n]), pos, r);
  }

  lemma {:induction false} PayloadAt(tags: seq<Piece>, j: nat, pos: nat)
    requires TagsOk(tags) && AllWritten(tags) && j < |tags| && pos == Rooms(tags[..j])
    ensures At(Payloads(tags), pos, Payload(tags[j]))
  {
    var n := |tags| - 1;
    if j < n {
      assert tags[..n][..j] == tags[..j];
      PayloadAt(tags[..n], j, pos);
      PayloadBefore(tags, n, pos, Payload(tags[j]));
    } else {
      LastPayload(tags, n, pos);
    }
  }

  lemma {:induction false} RoomsGrow(tags: seq<Piece>, i: nat, j: nat)
    requires i < j <= |tags|
    ensures Rooms(tags[..i]) + Room(tags[i]) <= Rooms(tags[..j])
    decreases j
  {
    assert tags[..j][..j - 1] == tags[..j - 1];
    if i < j - 1 {
      RoomsGrow(tags, i, j - 1);
    }
  }

  // The four parts of a directory.
  lemma DirParts(be: bool, f: seq<Byte>, d: Dir, at: nat, next: bool, base: nat)
    requires TagsOk(d.tags) && At(f, at, DirBytes(be, d, at, next)) && base == Base(at, |d.tags|)
    ensures At(f, at, Put16(be, |d.tags|)) && At(f, at + 2, Entries(be, d.tags, base))
    ensures At(f, base - 4, Put32(be, if next then base + Rooms(d.tags) else 0)) && At(f, base, Payloads(d.tags))
  {
    AtFour(f, at, Put16(be, |d.tags|), Entries(be, d.tags, base), Put32(be, if next then base + Rooms(d.tags) else 0), Payloads(d.tags));
  }

  // The two ends of the entries.
  lemma DirEnds(be: bool, f: seq<Byte>, d: Dir, at: nat, next: bool, base: nat, link: nat)
    requires TagsOk(d.tags) && At(f, at, DirBytes(be, d, at, next)) && base == Base(at, |d.tags|)
    requires link == if next then base + Rooms(d.tags) else 0
    ensures At(f, at, Put16(be, |d.tags|)) && At(f, base - 4, Put32(be, link))
  {
    DirParts(be, f, d, at, next, base);
  }

  lemma AtFour(f: seq<Byte>, pos: int, a: seq<Byte>, b: seq<Byte>, c: seq<Byte>, d: seq<Byte>)
    requires At(f, pos, a + b + c + d)
    ensures At(f, pos, a) && At(f, pos + |a|, b) && At(f, pos + |a| + |b|, c) && At(f, pos + |a| + |b| + |c|, d)
  {
    AtSplit(f, pos, a + b + c, d);
    AtSplit(f, pos, a + b, c);
    AtSplit(f, pos, a, b);
  }

  // Entry j of a directory, in the file.
  lemma EntryIsAt(be: bool, f: seq<Byte>, d: Dir, at: nat, next: bool, j: nat, offs: nat)
    requires TagsOk(d.tags) && j < |d.tags| && At(f, at, DirBytes(be, d, at, next)) && offs == ValueOffset(at, d.tags, j)
    ensures At(f, at + 2 + 12 * j, Entry(be, d.tags[j], offs))
  {
    var base := Base(at, |d.tags|);
    DirParts(be, f, d, at, next, base);
    EntryAt(be, d.tags, base, j, offs, 12 * j);
    AtInside(f, at + 2, Entries(be, d.tags, base), 12 * j, Entry(be, d.tags[j], offs));
  }

  // The value of tag j, in the file.
  lemma ValueIsAt(be: bool, f: seq<Byte>, d: Dir, at: nat, next: bool, j: nat, offs: nat)
    requires TagsOk(d.tags) && AllWritten(d.tags) && j < |d.tags| && d.tags[j].Far?
    requires At(f, at, DirBytes(be, d, at, next)) && offs == ValueOffset(at, d.tags, j)
    ensures At(f, offs, d.tags[j].value)
  {
    var base := Base(at, |d.tags|);
    DirParts(be, f, d, at, next, base);
    PayloadAt(d.tags, j, Rooms(d.tags[..j]));
    AtInside(f, base, Payloads(d.tags), Rooms(d.tags[..j]), Payload(d.tags[j]));
    AtSplit(f, offs, d.tags[j].value, Padding(|d.tags[j].value|));
  }

  // An offset is even, behind all entries, and leaves room for the value.
  lemma OffsetInside(d: Dir, at: nat, j: nat)
    requires j < |d.tags| && at % 2 == 0
    ensures var offs := ValueOffset(at, d.tags, j);
      offs % 2 == 0 && Base(at, |d.tags|) <= offs && offs + Room(d.tags[j]) <= at + DirSize(d)
  {
    RoomsGrow(d.tags, j, |d.tags|);
    assert d.tags[..|d.tags|] == d.tags;
  }

  lemma ValueFound(be: bool, f: seq<Byte>, d: Dir, at: nat, next: bool, j: nat, offs: nat)
    requires TagsOk(d.tags) && AllWritten(d.tags) && j < |d.tags| && d.tags[j].Far?
    requires At(f, at, DirBytes(be, d, at, next)) && offs == ValueOffset(at, d.tags, j)
    ensures At(f, at + 2 + 12 * j + 8, Put32(be, offs)) && At(f, offs, d.tags[j].value)
  {
    EntryIsAt(be, f, d, at, next, j, offs);
    AtSplit(f, at + 2 + 12 * j, d.tags[j].head, Put32(be, offs));
    ValueIsAt(be, f, d, at, next, j, offs);
  }

  /** The offset in a tag's entry is where its value lies, at an even position behind all entries and
      inside the directory's bounds. */
  lemma ValueIsWhereItSays(be: bool, ds: seq<Dir>, thumb: seq<Byte>, k: nat, j: nat)
    requires DirsOk(ds) && DirsWritten(ds) && k < |ds| && j < |ds[k].tags| && ds[k].tags[j].Far?
    ensures var f, at, tags := Segment(be, ds, thumb), Start(ds, k), ds[k].tags;
      var offs := ValueOffset(at, tags, j);
      && At(f, at + 2 + 12 * j + 8, Put32(be, offs)) && At(f, offs, tags[j].value)
      && offs % 2 == 0 && Base(at, |tags|) <= offs && offs + Room(tags[j]) <= Start(ds, k + 1)
  {
    var at := Start(ds, k);
    var offs := ValueOffset(at, ds[k].tags, j);
    ValueStands(be, ds, thumb, k, j, at, offs);
    ValueInside(ds, k, j, at, offs);
  }

  lemma ValueInside(ds: seq<Dir>, k: nat, j: nat, at: nat, offs: nat)
    requires k < |ds| && j < |ds[k].tags| && at == Start(ds, k) && offs == ValueOffset(at, ds[k].tags, j)
    ensures offs % 2 == 0 && Base(at, |ds[k].tags|) <= offs && offs + Room(ds[k].tags[j]) <= Start(ds, k + 1)
  {
    OffsetInside(ds[k], at, j);
  }

  lemma ValueStands(be: bool, ds: seq<Dir>, thumb: seq<Byte>, k: nat, j: nat, at: nat, offs: nat)
    requires DirsOk(ds) && DirsWritten(ds) && k < |ds| && j < |ds[k].tags| && ds[k].tags[j].Far?
    requires at == Start(ds, k) && offs == ValueOffset(at, ds[k].tags, j)
    ensures At(Segment(be, ds, thumb), at + 2 + 12 * j + 8, Put32(be, offs)) && At(Segment(be, ds, thumb), offs, ds[k].tags[j].value)
  {
    DirAtStart(be, ds, thumb, k);
    ValueFound(be, Segment(be, ds, thumb), ds[k], at, HasNext(ds, k), j, offs);
  }

  /** Values of one directory's tags do not overlap, and end before the next directory. */
  lemma ValuesAreDisjoint(ds: seq<Dir>, k: nat, i: nat, j: nat)
    requires k < |ds| && i < j < |ds[k].tags|
    ensures var at := Start(ds, k);
      && ValueOffset(at, ds[k].tags, i) + Room(ds[k].tags[i]) <= ValueOffset(at, ds[k].tags, j)
      && ValueOffset(at, ds[k].tags, j) + Room(ds[k].tags[j]) <= Start(ds, k + 1)
  {
    var tags := ds[k].tags;
    RoomsGrow(tags, i, j);
    RoomsGrow(tags, j, |tags|);
    assert tags[..|tags|] == tags;
  }

  lemma {:induction false} StartsGrow(ds: seq<Dir>, j: nat, k: nat)
    requires j <= k <= |ds|
    ensures Start(ds, j) <= Start(ds, k)
    decreases k
  {
    if j < k {
      StartsGrow(ds, j, k - 1);
    }
  }

  /** Nor does a value reach into any later directory. */
  lemma DirsAreDisjoint(ds: seq<Dir>, k: nat, i: nat, m: nat)
    requires k < m <= |ds| && i < |ds[k].tags|
    ensures ValueOffset(Start(ds, k), ds[k].tags, i) + Room(ds[k].tags[i]) <= Start(ds, m)
  {
    var tags := ds[k].tags;
    RoomsGrow(tags, i, |tags|);
    assert tags[..|tags|] == tags;
    StartsGrow(ds, k + 1, m);
  }
}
