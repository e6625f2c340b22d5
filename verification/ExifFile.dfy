// The Exif reader as the program runs it: an open segment with a position, the directories queued as
// they are read, and three offsets that the entries met on the way fill in.
module ExifFile {
  import opened Bytes
  import opened ExifLayout
  import opened ExifModel
  import opened ExifPass
  import opened ExifRead
  import opened Sequences
  import opened Wrappers
  import ExifApp
  import ExifWhole

  ghost predicate HeadsAre(be: bool, f: seq<Byte>, pos: nat, rs: seq<Read>) {
    All(|rs|, HeadAt(be, f, pos)) == Some(rs)
  }

  lemma OneMoreHead(be: bool, f: seq<Byte>, pos: nat, rs: seq<Read>, i: nat, r: Read)
    requires HeadsAre(be, f, pos, rs) && |rs| == i && ReadHead(be, f, pos + 12 * i) == Some(r)
    ensures HeadsAre(be, f, pos, rs + [r])
  {
    var get := HeadAt(be, f, pos);
    assert get(i) == Some(r);
    AllNext(i, get, rs, r);
  }

  lemma HeadHere(be: bool, f: seq<Byte>, pos: nat, rs: seq<Read>, i: nat)
    requires HeadsAre(be, f, pos, rs) && i < |rs|
    ensures ReadHead(be, f, pos + 12 * i) == Some(rs[i])
  {
    AllAt(|rs|, HeadAt(be, f, pos), rs, i);
  }

  // An entry that cannot be read, or whose value cannot.
  lemma OneMissing(be: bool, f: seq<Byte>, pos: nat, n: nat, i: nat)
    requires i < n && ReadTag(be, f, pos + 12 * i) == None
    ensures ReadTags(be, f, pos, n) == None
  {
    AllNone(n, TagAt(be, f, pos), i);
  }

  // The values of the first i entries are fetched.
  ghost predicate ValuesSoFar(be: bool, f: seq<Byte>, at: nat, rs: seq<Read>, i: nat, ts: seq<Read>) {
    i <= |rs| && ReadTags(be, f, at, i) == Some(ts) && SameEntries(rs[..i], ts)
  }

  /** The two loops together read a tag: what the first takes of an entry, with the value the second fetches. */
  lemma HeadThenValue(be: bool, f: seq<Byte>, at: nat, rs: seq<Read>, i: nat)
    requires HeadsAre(be, f, at, rs) && i < |rs|
    ensures ReadTag(be, f, at + 12 * i) == Fetched(be, f, rs[i])
  {
    HeadHere(be, f, at, rs, i);
  }

  lemma ValueMissing(be: bool, f: seq<Byte>, at: nat, rs: seq<Read>, i: nat)
    requires HeadsAre(be, f, at, rs) && i < |rs| && Fetched(be, f, rs[i]) == None
    ensures ReadTags(be, f, at, |rs|) == None
  {
    HeadThenValue(be, f, at, rs, i);
    OneMissing(be, f, at, |rs|, i);
  }

  lemma ValueComes(be: bool, f: seq<Byte>, at: nat, rs: seq<Read>, i: nat, ts: seq<Read>, t: Read)
    requires HeadsAre(be, f, at, rs) && i < |rs| && Fetched(be, f, rs[i]) == Some(t) && ValuesSoFar(be, f, at, rs, i, ts)
    ensures ValuesSoFar(be, f, at, rs, i + 1, ts + [t])
  {
    HeadThenValue(be, f, at, rs, i);
    AllNext(i, TagAt(be, f, at), ts, t);
    FetchedSame(be, f, rs[i], t);
    OneMoreSame(rs, i, ts, t);
  }

  lemma OneMoreSame(rs: seq<Read>, i: nat, ts: seq<Read>, t: Read)
    requires i < |rs| && SameEntries(rs[..i], ts) && t.value == rs[i].value && t.tag.id == rs[i].tag.id
    ensures SameEntries(rs[..i + 1], ts + [t])
  {
  }

  lemma FetchedSame(be: bool, f: seq<Byte>, r: Read, t: Read)
    requires Fetched(be, f, r) == Some(t)
    ensures t.value == r.value && t.tag.id == r.tag.id
  {
  }

  lemma ValuesDone(be: bool, f: seq<Byte>, at: nat, rs: seq<Read>, i: nat, ts: seq<Read>)
    requires ValuesSoFar(be, f, at, rs, i, ts) && i == |rs|
    ensures ReadTags(be, f, at, |rs|) == Some(ts) && SameEntries(rs, ts)
  {
    assert rs[..i] == rs;
  }

  // Where the entries say that further directories are; 0 for nowhere.
  datatype Offsets = Offsets(exif: nat, gps: nat, inter: nat)

  function Noted(nr: nat, r: Read, o: Offsets): Offsets {
    if nr == IFD0 then
      if r.tag.id == TAG_EXIF_IFD then o.(exif := r.value) else if r.tag.id == TAG_GPS_IFD then o.(gps := r.value) else o
    else if nr == EXIF_IFD && r.tag.id == TAG_INTER_IFD then o.(inter := r.value)
    else o
  }

  function NotedAll(nr: nat, rs: seq<Read>, o: Offsets): Offsets {
    if rs == [] then o else Noted(nr, rs[|rs| - 1], NotedAll(nr, rs[..|rs| - 1], o))
  }

  lemma {:induction false} NotedIsLast(nr: nat, rs: seq<Read>, o: Offsets)
    requires (nr == IFD0 ==> o.exif == o.gps == 0) && (nr == EXIF_IFD ==> o.inter == 0)
    ensures var r := NotedAll(nr, rs, o);
      && r.exif == (if nr == IFD0 then LastValue(rs, TAG_EXIF_IFD) else o.exif)
      && r.gps == (if nr == IFD0 then LastValue(rs, TAG_GPS_IFD) else o.gps)
      && r.inter == (if nr == EXIF_IFD then LastValue(rs, TAG_INTER_IFD) else o.inter)
  {
    if rs != [] {
      NotedIsLast(nr, rs[..|rs| - 1], o);
    }
  }

  lemma NotedSnoc(nr: nat, rs: seq<Read>, r: Read, o: Offsets)
    ensures NotedAll(nr, rs + [r], o) == Noted(nr, r, NotedAll(nr, rs, o))
  {
    assert (rs + [r])[..|rs|] == rs;
  }

  // Fetching the values changes neither ids nor the entries' own values.
  ghost predicate SameEntries(rs: seq<Read>, ts: seq<Read>) {
    |ts| == |rs| && forall i | 0 <= i < |rs| :: ts[i].value == rs[i].value && ts[i].tag.id == rs[i].tag.id
  }

  lemma {:induction false} NotedSame(nr: nat, rs: seq<Read>, ts: seq<Read>, o: Offsets)
    requires SameEntries(rs, ts)
    ensures NotedAll(nr, rs, o) == NotedAll(nr, ts, o)
  {
    if rs != [] {
      NotedSame(nr, rs[..|rs| - 1], ts[..|ts| - 1], o);
    }
  }

  // Reading one directory: what ReadIfd says, the list longer by it, the offsets noted.
  ghost predicate IfdDone(io: Option<IfdRead>, ok: bool, next: nat, nr: nat, before: seq<Ifd>, list: seq<Ifd>, o: Offsets, o': Offsets) {
    if !ok then io == None
    else io.Some? && next == io.value.next && list == before + [Ifd(nr, TagsOf(io.value.entries))] && o' == NotedAll(nr, io.value.entries, o)
  }

  ghost predicate PartDone(io: Option<Part>, ok: bool, nr: nat, before: seq<Ifd>, list: seq<Ifd>, o: Offsets, o': Offsets) {
    if !ok then io == None
    else io.Some? && list == before + io.value.ds && o' == NotedAll(nr, io.value.entries, o)
  }

  ghost predicate OtherDone(io: Option<Part>, ok: bool, nr: nat, before: seq<Ifd>, list: seq<Ifd>, o: Offsets, o': Offsets) {
    if !ok then io == None
    else
      && io.Some? && list == before + io.value.ds
      && o' == if nr == EXIF_IFD then o.(inter := LastValue(io.value.entries, TAG_INTER_IFD)) else o
  }

  lemma IfdFails(be: bool, f: seq<Byte>, offs: nat, n: nat, at: nat, behind: nat)
    requires Word(be, f, offs) == Some(n) && n > 0 && at == offs + 2 && behind == at + 12 * n
    requires ReadTags(be, f, at, n) == None || Word(be, f, behind) == None
    ensures ReadIfd(be, f, offs) == None
  {
  }

  lemma IfdComes(be: bool, f: seq<Byte>, offs: nat, n: nat, at: nat, behind: nat, ts: seq<Read>, next: nat)
    requires Word(be, f, offs) == Some(n) && n > 0 && at == offs + 2 && behind == at + 12 * n
    requires ReadTags(be, f, at, n) == Some(ts) && Word(be, f, behind) == Some(next)
    ensures ReadIfd(be, f, offs) == Some(IfdRead(ts, next))
  {
  }

  lemma BodyDone(be: bool, f: seq<Byte>, offs: nat, n: nat, at: nat, behind: nat, nr: nat, ts: seq<Read>, next: nat, before: seq<Ifd>, o: Offsets, o': Offsets)
    requires Word(be, f, offs) == Some(n) && n > 0 && at == offs + 2 && behind == at + 12 * n
    requires ReadTags(be, f, at, n) == Some(ts) && Word(be, f, behind) == Some(next) && o' == NotedAll(nr, ts, o)
    ensures IfdDone(ReadIfd(be, f, offs), true, next, nr, before, before + [Ifd(nr, TagsOf(ts))], o, o')
  {
    IfdComes(be, f, offs, n, at, behind, ts, next);
  }

  // The parts of a segment, in the order they are looked for.
  ghost predicate AppParts(be: bool, f: seq<Byte>, rs: seq<Read>, link: nat, p1: Option<Part>, p2: Option<Part>, p3: Option<Part>) {
    && Long(be, f, 4).Some? && ReadIfd(be, f, Long(be, f, 4).value) == Some(IfdRead(rs, link))
    && p1 == ReadPart(be, f, IFD1, link) && p2 == ReadPart(be, f, EXIF_IFD, LastValue(rs, TAG_EXIF_IFD))
    && p3 == ReadPart(be, f, GPS_IFD, LastValue(rs, TAG_GPS_IFD))
  }

  lemma AppFails(be: bool, f: seq<Byte>, rs: seq<Read>, link: nat, p1: Option<Part>, p2: Option<Part>, p3: Option<Part>)
    requires AppParts(be, f, rs, link, p1, p2, p3)
    requires p1 == None || p2 == None || p3 == None || ReadPart(be, f, INTER_IFD, LastValue(p2.value.entries, TAG_INTER_IFD)) == None
    ensures ReadApp(be, f) == None
  {
  }

  lemma AppComes(be: bool, f: seq<Byte>, rs: seq<Read>, link: nat, p1: Part, p2: Part, p3: Part, p4: Part)
    requires AppParts(be, f, rs, link, Some(p1), Some(p2), Some(p3))
    requires ReadPart(be, f, INTER_IFD, LastValue(p2.entries, TAG_INTER_IFD)) == Some(p4)
    ensures ReadApp(be, f) == Some([Ifd(IFD0, TagsOf(rs))] + p1.ds + p2.ds + p3.ds + p4.ds)
  {
  }

  class Reader {
    const f: seq<Byte>
    const be: bool
    var pos: nat
    var list: seq<Ifd>
    var ofs: Offsets

    constructor (f: seq<Byte>, be: bool)
      ensures this.f == f && this.be == be && pos == 0 && list == [] && ofs == Offsets(0, 0, 0)
    {
      this.f, this.be, pos, list, ofs := f, be, 0, [], Offsets(0, 0, 0);
    }

    method GetWord() returns (ok: bool, x: nat)
      modifies this`pos
      ensures Word(be, f, old(pos)) == if ok then Some(x) else None
      ensures pos == old(pos) + if ok then 2 else 0
    {
      ok, x := pos + 2 <= |f|, 0;
      if ok {
        x, pos := U16(Swap(be, f[pos..pos + 2])), pos + 2;
      }
    }

    method GetEntry() returns (ok: bool, r: Read)
      modifies this`pos
      ensures ReadHead(be, f, old(pos)) == if ok then Some(r) else None
      ensures ok ==> pos == old(pos) + 12
    {
      r := Read(Tag(0, 0, 0, 0, []), 0);
      ok := pos + 12 <= |f|;
      if ok {
        var id, typ, count := U16(Swap(be, f[pos..pos + 2])), U16(Swap(be, f[pos + 2..pos + 4])), U32(Swap(be, f[pos + 4..pos + 8]));
        var data := f[pos + 8..pos + 12];
        if !(ByteType(typ) && count <= 4) {
          data := Swap(be, data);
        }
        ok := TypeSize(typ) != 0;
        r := Read(Tag(id, typ, count, TypeSize(typ) * count, data), U32(data));
        pos := pos + 12;
      }
    }

    method Note(nr: nat, r: Read)
      modifies this`ofs
      ensures ofs == Noted(nr, r, old(ofs))
    {
      if nr == IFD0 {
        if r.tag.id == TAG_EXIF_IFD {
          ofs := ofs.(exif := r.value);
        } else if r.tag.id == TAG_GPS_IFD {
          ofs := ofs.(gps := r.value);
        }
      } else if nr == EXIF_IFD {
        if r.tag.id == TAG_INTER_IFD {
          ofs := ofs.(inter := r.value);
        }
      }
    }

    method GetEntries(nr: nat, n: nat) returns (ok: bool, rs: seq<Read>)
      modifies this`pos, this`ofs
      ensures !ok ==> ReadTags(be, f, old(pos), n) == None
      ensures ok ==> |rs| == n && HeadsAre(be, f, old(pos), rs) && pos == old(pos) + 12 * n && ofs == NotedAll(nr, rs, old(ofs))
    {
      ghost var start := pos;
      ok, rs := true, [];
      var i, r := 0, Read(Tag(0, 0, 0, 0, []), 0);
      while i < n
        invariant 0 <= i <= n && ok && |rs| == i && HeadsAre(be, f, start, rs) && pos == start + 12 * i
        invariant ofs == NotedAll(nr, rs, old(ofs))
      {
        ok, r := GetEntry();
        if !ok {
          OneMissing(be, f, start, n, i);
          return;
        }
        Note(nr, r);
        OneMoreHead(be, f, start, rs, i, r);
        NotedSnoc(nr, rs, r, old(ofs));
        rs := rs + [r];
        i := i + 1;
      }
    }

    // The items of a value, one after the other.
    method GetItems(typ: nat, item: nat, count: nat, ghost start: nat, ghost total: nat) returns (ok: bool, data: seq<Byte>)
      requires item == TypeSize(typ) > 0 && pos == start && total == item * count
      modifies this`pos
      ensures ok <==> start + total <= |f|
      ensures ok ==> ItemsRead(be, f, typ, count, start, start + total, data)
    {
      var i := 0;
      ok, data := pos <= |f|, [];
      if !ok {
        return;
      }
      FirstItems(be, f, typ, count, start, total, data);
      while i < count
        invariant i <= count && ok && pos <= |f| && ItemsToCome(be, f, typ, count, start, total, i, pos, data)
      {
        ok, data := GetItem(typ, item, count, start, total, i, data);
        if !ok {
          return;
        }
        i := i + 1;
      }
      LastItem(be, f, typ, count, start, total, pos, data);
    }

    method GetItem(typ: nat, item: nat, ghost count: nat, ghost start: nat, ghost total: nat, ghost i: nat, data: seq<Byte>)
      returns (ok: bool, data': seq<Byte>)
      requires item == TypeSize(typ) > 0 && i < count && ItemsToCome(be, f, typ, count, start, total, i, pos, data)
      modifies this`pos
      ensures if ok then pos <= |f| && ItemsToCome(be, f, typ, count, start, total, i + 1, pos, data') else start + total > |f|
    {
      NextItem(be, f, typ, count, start, total, i, pos, data, item);
      ok, data' := pos + item <= |f|, data;
      if ok {
        data' := data + Item(be, typ, f[pos..pos + item]);
        pos := pos + item;
      }
    }

    method GetValue(r: Read) returns (ok: bool, t: Read)
      requires r.tag.size == TypeSize(r.tag.typ) * r.tag.count && TypeSize(r.tag.typ) > 0
      modifies this`pos
      ensures Fetched(be, f, r) == if ok then Some(t) else None
    {
      ok, t := true, r;
      if r.tag.size > 4 && r.value != 0 {
        if !Known(r.tag.typ) || !Countable(r.tag.typ, r.tag.count) {
          return false, t;
        }
        var data;
        pos := r.value;
        ok, data := GetItems(r.tag.typ, TypeSize(r.tag.typ), r.tag.count, r.value, r.tag.size);
        t := r.(tag := r.tag.(data := data));
      }
    }

    method GetValues(rs: seq<Read>, ghost at: nat) returns (ok: bool, ts: seq<Read>)
      requires HeadsAre(be, f, at, rs)
      modifies this`pos
      ensures !ok ==> ReadTags(be, f, at, |rs|) == None
      ensures ok ==> ReadTags(be, f, at, |rs|) == Some(ts) && SameEntries(rs, ts)
    {
      ok, ts := true, [];
      var i := 0;
      while i < |rs|
        invariant 0 <= i <= |rs| && ValuesSoFar(be, f, at, rs, i, ts)
      {
        var t;
        HeadHere(be, f, at, rs, i);
        ok, t := GetValue(rs[i]);
        if !ok {
          ValueMissing(be, f, at, rs, i);
          return;
        }
        ValueComes(be, f, at, rs, i, ts, t);
        ts := ts + [t];
        i := i + 1;
      }
      ValuesDone(be, f, at, rs, i, ts);
      ok := true;
    }

    /** One directory goes on the list, and its entries leave the offsets of others behind. */
    method GetIfd(nr: nat, offs: nat) returns (ok: bool, next: nat)
      modifies this
      ensures IfdDone(ReadIfd(be, f, offs), ok, next, nr, old(list), list, old(ofs), ofs)
    {
      var n;
      next := 0;
      pos := offs;
      ok, n := GetWord();
      if !ok {
        return;
      }
      if n == 0 {
        list := list + [Ifd(nr, [])];
        return;
      }
      ok, next := GetBody(nr, offs, n);
    }

    method GetBody(nr: nat, offs: nat, n: nat) returns (ok: bool, next: nat)
      requires pos == offs + 2 && Word(be, f, offs) == Some(n) && n > 0
      modifies this
      ensures IfdDone(ReadIfd(be, f, offs), ok, next, nr, old(list), list, old(ofs), ofs)
    {
      ghost var at, behind := pos, pos + 12 * n;
      var ts;
      ok, next, ts := GetLoops(nr, n, at, behind);
      if !ok {
        IfdFails(be, f, offs, n, at, behind);
        return;
      }
      var tags := TagList(ts);
      BodyDone(be, f, offs, n, at, behind, nr, ts, next, old(list), old(ofs), ofs);
      list := list + [Ifd(nr, tags)];
    }

    // The two loops, with the link read in between.
    method GetLoops(nr: nat, n: nat, ghost at: nat, ghost behind: nat) returns (ok: bool, next: nat, ts: seq<Read>)
      requires pos == at && behind == at + 12 * n
      modifies this`pos, this`ofs
      ensures !ok ==> ReadTags(be, f, at, n) == None || Word(be, f, behind) == None
      ensures ok ==> ReadTags(be, f, at, n) == Some(ts) && Word(be, f, behind) == Some(next) && ofs == NotedAll(nr, ts, old(ofs))
    {
      var rs;
      next, ts := 0, [];
      ok, rs := GetEntries(nr, n);
      if !ok {
        return;
      }
      ok, next := GetWord();
      if !ok {
        return;
      }
      ok, ts := GetValues(rs, at);
      if ok {
        NotedSame(nr, rs, ts, old(ofs));
      }
    }

    method GetPart(nr: nat, offs: nat) returns (ok: bool)
      modifies this
      ensures PartDone(ReadPart(be, f, nr, offs), ok, nr, old(list), list, old(ofs), ofs)
    {
      ok := true;
      if offs != 0 {
        var next;
        ok, next := GetIfd(nr, offs);
      }
    }

    // A directory behind the first one, `io` what ReadPart says of it.
    method GetOther(nr: nat, offs: nat, ghost io: Option<Part>) returns (ok: bool)
      requires io == ReadPart(be, f, nr, offs) && nr != IFD0 && (nr == EXIF_IFD ==> ofs.inter == 0)
      modifies this
      ensures OtherDone(io, ok, nr, old(list), list, old(ofs), ofs)
    {
      ok := GetPart(nr, offs);
      if ok {
        NotedIsLast(nr, io.value.entries, old(ofs));
      }
    }

    /** The whole segment. */
    method GetApp() returns (ok: bool)
      requires list == [] && ofs == Offsets(0, 0, 0)
      modifies this
      ensures ReadApp(be, f) == if ok then Some(list) else None
    {
      if 8 > |f| {
        return false;
      }
      var offs, next := U32(Swap(be, f[4..8])), 0;
      ok, next := GetIfd(IFD0, offs);
      if !ok {
        return;
      }
      ghost var rs := ReadIfd(be, f, offs).value.entries;
      NotedIsLast(IFD0, rs, Offsets(0, 0, 0));
      ghost var p1 := ReadPart(be, f, IFD1, next);
      ghost var p2 := ReadPart(be, f, EXIF_IFD, ofs.exif);
      ghost var p3 := ReadPart(be, f, GPS_IFD, ofs.gps);
      ok := GetRest(rs, next, p1, p2, p3);
    }

    method GetRest(ghost rs: seq<Read>, next: nat, ghost p1: Option<Part>, ghost p2: Option<Part>, ghost p3: Option<Part>) returns (ok: bool)
      requires AppParts(be, f, rs, next, p1, p2, p3) && list == [Ifd(IFD0, TagsOf(rs))]
      requires ofs == Offsets(LastValue(rs, TAG_EXIF_IFD), LastValue(rs, TAG_GPS_IFD), 0)
      modifies this
      ensures ReadApp(be, f) == if ok then Some(list) else None
    {
      ok := GetThree(next, p1, p2, p3);
      if !ok {
        AppFails(be, f, rs, next, p1, p2, p3);
        return;
      }
      ghost var p4 := ReadPart(be, f, INTER_IFD, ofs.inter);
      ok := GetOther(INTER_IFD, ofs.inter, p4);
      if ok {
        AppComes(be, f, rs, next, p1.value, p2.value, p3.value, p4.value);
      } else {
        AppFails(be, f, rs, next, p1, p2, p3);
      }
    }

    method GetThree(next: nat, ghost p1: Option<Part>, ghost p2: Option<Part>, ghost p3: Option<Part>) returns (ok: bool)
      requires p1 == ReadPart(be, f, IFD1, next) && p2 == ReadPart(be, f, EXIF_IFD, ofs.exif) && p3 == ReadPart(be, f, GPS_IFD, ofs.gps) && ofs.inter == 0
      modifies this
      ensures ok <==> p1.Some? && p2.Some? && p3.Some?
      ensures ok ==> list == old(list) + p1.value.ds + p2.value.ds + p3.value.ds && ofs.inter == LastValue(p2.value.entries, TAG_INTER_IFD)
    {
      ok := GetOther(IFD1, next, p1);
      if ok {
        ok := GetOther(EXIF_IFD, ofs.exif, p2);
        if ok {
          ok := GetOther(GPS_IFD, ofs.gps, p3);
        }
      }
    }
  }

  method TagList(rs: seq<Read>) returns (r: seq<Tag>)
    ensures r == TagsOf(rs)
  {
    r := [];
    var i := 0;
    while i < |rs|
      invariant 0 <= i <= |rs| && r == TagsOf(rs[..i])
    {
      assert rs[..i + 1][..i] == rs[..i];
      r := r + [rs[i].tag];
      i := i + 1;
    }
    assert rs[..i] == rs;
  }

  // The bytes up to `end` are the items of this value.
  ghost predicate ItemsRead(be: bool, f: seq<Byte>, typ: nat, count: nat, start: nat, end: nat, data: seq<Byte>) {
    start <= end <= |f| && end - start == TypeSize(typ) * count && data == Items(be, typ, count, f[start..end])
  }

  // If the value is all there, these data and the items still ahead are it.
  ghost predicate ItemsToCome(be: bool, f: seq<Byte>, typ: nat, count: nat, start: nat, total: nat, i: nat, pos: nat, data: seq<Byte>) {
    && i <= count && start <= pos <= start + total && start + total - pos == TypeSize(typ) * (count - i)
    && (start + total <= |f| ==> forall rest | ItemsRead(be, f, typ, count - i, pos, start + total, rest) ::
        ItemsRead(be, f, typ, count, start, start + total, data + rest))
  }

  lemma FirstItems(be: bool, f: seq<Byte>, typ: nat, count: nat, start: nat, total: nat, data: seq<Byte>)
    requires total == TypeSize(typ) * count && data == []
    ensures ItemsToCome(be, f, typ, count, start, total, 0, start, data)
  {
    forall rest | ItemsRead(be, f, typ, count, start, start + total, rest) ensures ItemsRead(be, f, typ, count, start, start + total, data + rest) {
      Units(rest);
    }
  }

  lemma NextItem(be: bool, f: seq<Byte>, typ: nat, count: nat, start: nat, total: nat, i: nat, pos: nat, data: seq<Byte>, item: nat)
    requires ItemsToCome(be, f, typ, count, start, total, i, pos, data) && i < count && item == TypeSize(typ) > 0
    ensures pos + item <= start + total
    ensures pos + item <= |f| ==> ItemsToCome(be, f, typ, count, start, total, i + 1, pos + item, data + Item(be, typ, f[pos..pos + item]))
  {
    var left, end := count - i, start + total;
    TimesMonotone(item, left);
    if end <= |f| {
      var x := Item(be, typ, f[pos..pos + item]);
      forall rest | ItemsRead(be, f, typ, left - 1, pos + item, end, rest)
        ensures ItemsRead(be, f, typ, count, start, end, data + x + rest)
      {
        ItemInFront(be, f, typ, left, pos, end, item, rest);
        Associate(data, x, rest);
      }
    }
  }

  lemma ItemInFront(be: bool, f: seq<Byte>, typ: nat, left: nat, pos: nat, end: nat, item: nat, rest: seq<Byte>)
    requires left > 0 && item == TypeSize(typ) && pos + item <= end <= |f| && end - pos == item * left
    requires ItemsRead(be, f, typ, left - 1, pos + item, end, rest)
    ensures ItemsRead(be, f, typ, left, pos, end, Item(be, typ, f[pos..pos + item]) + rest)
  {
    var all := f[pos..end];
    assert all[..item] == f[pos..pos + item] && all[item..] == f[pos + item..end];
  }

  lemma TimesMonotone(item: nat, left: nat)
    requires left > 0
    ensures item * left == item * (left - 1) + item >= item
  {
  }

  lemma LastItem(be: bool, f: seq<Byte>, typ: nat, count: nat, start: nat, total: nat, pos: nat, data: seq<Byte>)
    requires ItemsToCome(be, f, typ, count, start, total, count, pos, data)
    ensures pos == start + total && (pos <= |f| ==> ItemsRead(be, f, typ, count, start, pos, data))
  {
    if pos <= |f| {
      assert f[pos..pos] == [];
      assert ItemsRead(be, f, typ, 0, pos, pos, []);
      Units(data);
    }
  }

  /** exif_examine_app: the byte order is taken from the segment's first bytes, then its directories are read. */
  method Examine(f: seq<Byte>) returns (ok: bool, list: seq<Ifd>)
    ensures ReadSegment(f) == if ok then Some(list) else None
  {
    list := [];
    if |f| < 2 {
      return false, list;
    }
    var endianess, bigEndian := f[0] as int + 256 * f[1] as int, false;
    if endianess == 0x4949 {
      bigEndian := false;
    } else if endianess == 0x4D4D {
      bigEndian := true;
    } else {
      return false, list;
    }
    var r := new Reader(f, bigEndian);
    ok := r.GetApp();
    list := r.list;
  }

  /** An image put in order, written in either order and read again, is the image put in order, less what the
      big-endian order loses. */
  method WriteAndRead(ds: seq<Ifd>, be: bool, thumb: seq<Byte>) returns (ok: bool, list: seq<Ifd>)
    requires ExifWhole.Fit(Started(ds))
    ensures ok && list == CameBack(be, LaidOut(ds))
  {
    ExifWhole.ExifRoundTrip(ds, be, thumb);
    var app := new ExifApp.App(ds, be);
    app.LayOut();
    var out := app.Write(thumb);
    ok, list := Examine(out.data);
  }
}
