// The GPI reader as the program runs it: one open file with a position, waypoints added to the list
// as they are completed. Each routine does what the function of the same record in GpiReader says.
module GpiFile {
  import opened Bytes
  import opened GpiModel
  import opened GpiFormat
  import opened GpiReader
  import opened GpiRoundTrip
  import opened Sequences
  import opened Wrappers
  import GpiSplit

  ghost predicate Is<T(!new)>(io: Io<T>, ok: bool, x: T, pos: int) {
    io == if ok then Got(x, pos) else Stop
  }

  // A tag handled: the waypoint at hand may have changed, completed ones are in the list.
  ghost predicate Stepped(io: Io<Step>, ok: bool, more: bool, w: Option<Poi>, pos: int, before: seq<Poi>, list: seq<Poi>) {
    if ok then io.Got? && io.pos == pos && io.val.more == more && io.val.wpt == w && list == before + io.val.found
    else io.Stop?
  }

  ghost predicate Added(io: Io<seq<Poi>>, ok: bool, pos: int, before: seq<Poi>, list: seq<Poi>) {
    if ok then io.Got? && io.pos == pos && list == before + io.val else io.Stop?
  }

  class Reader {
    const f: seq<Byte>
    var pos: int
    var list: seq<Poi>

    constructor (f: seq<Byte>)
      ensures this.f == f && pos == 0 && list == []
    {
      this.f, pos, list := f, 0, [];
    }

    // ------------------------------------------------------------ numbers and strings

    method GetInt32() returns (ok: bool, x: int)
      modifies this`pos
      ensures Is(Int32(f, old(pos)), ok, x, pos)
    {
      ok, x := 0 <= pos && pos + 4 <= |f|, 0;
      if ok {
        x, pos := S32(f[pos..pos + 4]), pos + 4;
      }
    }

    method GetInt16() returns (ok: bool, x: int)
      modifies this`pos
      ensures Is(Int16(f, old(pos)), ok, x, pos)
    {
      ok, x := 0 <= pos && pos + 2 <= |f|, 0;
      if ok {
        x, pos := S16(f[pos..pos + 2]), pos + 2;
      }
    }

    method GetMask() returns (ok: bool, x: nat)
      modifies this`pos
      ensures Is(Mask16(f, old(pos)), ok, x, pos)
    {
      ok, x := 0 <= pos && pos + 2 <= |f|, 0;
      if ok {
        x, pos := U16(f[pos..pos + 2]), pos + 2;
      }
    }

    method GetBytes(len: int) returns (ok: bool, s: Str)
      modifies this`pos
      ensures Is(Take(f, old(pos), len), ok, s, pos)
    {
      ok, s := 0 <= pos && 0 <= len && pos + len <= |f|, [];
      if ok {
        s, pos := f[pos..pos + len], pos + len;
      }
    }

    /** A string with or without a language header; a length of zero or less gives NULL. */
    method GetString() returns (ok: bool, s: Option<Str>)
      modifies this`pos
      ensures Is(ReadString(f, old(pos)), ok, s, pos)
    {
      var l1, text;
      s := None;
      ok, l1 := GetInt16();
      if !ok || l1 <= 0 {
        return;
      }
      if pos >= |f| {
        return false, s;
      }
      if f[pos] == 0 {
        pos := pos + 1;
        ok, s := GetLong(l1);
      } else {
        ok, text := GetBytes(l1);
        s := Some(text);
      }
    }

    method GetLong(l1: int) returns (ok: bool, s: Option<Str>)
      modifies this`pos
      ensures Is(ReadLong(f, old(pos), l1), ok, s, pos)
    {
      var h, l2, text;
      s := None;
      ok, h := GetBytes(3);
      if !ok {
        return;
      }
      ok, l2 := GetInt16();
      if !ok || h[0] != 0 || l2 + 4 != l1 || !Capital(h[1]) || !Capital(h[2]) {
        return false, s;
      }
      ok, text := GetBytes(if l2 > 0 then l2 else 0);
      s := Some(text);
    }

    method GetIf(mask: nat, bit: nat, was: Option<Str>) returns (ok: bool, s: Option<Str>)
      requires bit > 0
      modifies this`pos
      ensures Is(ReadIf(f, old(pos), mask, bit, was), ok, s, pos)
    {
      ok, s := true, was;
      if HasBit(mask, bit) {
        var t;
        ok, t := GetString();
        if t.Some? {
          s := t;
        }
      }
    }

    // ------------------------------------------------------------ records of a waypoint

    method GetAddress(w: Poi) returns (ok: bool, r: Poi)
      modifies this`pos
      ensures Is(ReadAddress(f, old(pos), w), ok, r, pos)
    {
      var mask, s;
      r := w;
      ok, mask := GetMask();
      if !ok {
        return;
      }
      ghost var target := ReadFields(f, pos, mask, 0, w);
      var k := 0;
      while k < 5
        invariant 0 <= k <= 5 && ReadFields(f, pos, mask, k, r) == target
      {
        ok, s := GetIf(mask, FieldBit(k), Field(r, k));
        if !ok {
          return;
        }
        r := SetField(r, k, s);
        k := k + 1;
      }
      ok := true;
    }

    // The tags that change the waypoint at hand, one case of the handler each.
    method GetDetail(tag: int, w: Poi) returns (ok: bool, r: Poi)
      requires WaypointTag(tag)
      modifies this`pos
      ensures Is(ReadDetail(f, tag, old(pos), w), ok, r, pos)
    {
      var mask, sub, s;
      ok, r := true, w;
      if tag == 0x8000b || tag == 0x8000c {
        ok, sub := GetInt32();
      }
      if !ok {
      } else if tag == 0x3 || tag == 0x80003 {
        var dist, speed;
        ok, dist := GetInt16();
        if !ok { return; }
        ok, speed := GetInt16();
        if !ok || pos + 8 > |f| {
          return false, r;
        }
        if dist > 0 {
          r := r.(proximity := Some(dist));
        }
        if speed > 0 {
          if !Marked(w) {
            r := r.(speed := Some(speed));
          }
        }
        pos := pos + 8;
      } else if tag == 0xa {
        ok, s := GetString();
        r := w.(description := s);
      } else if tag == 0xe {
        var flag;
        ok, flag := GetBytes(1);
        if !ok || (flag[0] != 0x01 && flag[0] != 0x32) { return; }
        ok, s := GetString();
        r := if w.description.Some? then w.(notes := s) else w.(description := s);
      } else if tag == 0xb || tag == 0x8000b {
        ok, r := GetAddress(w);
      } else {
        ok, mask := GetMask();
        if !ok { return; }
        ok, s := GetIf(mask, 1, w.phoneNr);
        r := r.(phoneNr := s);
        if !ok || tag == 0x8000c { return; }
        ok, s := GetIf(mask, 2, w.phoneNr2);
        r := r.(phoneNr2 := s);
        if !ok { return; }
        ok, s := GetIf(mask, 4, w.faxNr);
        r := r.(faxNr := s);
        if !ok { return; }
        ok, s := GetIf(mask, 8, w.email);
        r := r.(email := s);
        if !ok { return; }
        ok, s := GetIf(mask, 16, None);
        if s.Some? {
          r := r.(links := w.links + [s.value]);
        }
      }
    }

    // ------------------------------------------------------------ the tag handler

    /** Handles one record and seeks behind it; an unknown tag ends the caller's loop. */
    method HandleOne(fuel: nat, tag: int, w: Option<Poi>) returns (ok: bool, more: bool, w': Option<Poi>)
      modifies this
      ensures Stepped(ReadTag(f, fuel, tag, old(pos), w), ok, more, w', pos, old(list), list)
      decreases fuel, 2
    {
      var size;
      more, w' := false, w;
      ok, size := GetInt32();
      if !ok {
        return;
      }
      var p, sz := pos, TagSize(tag, size);
      ok, more, w' := Dispatch(fuel, tag, sz, w);
      if ok {
        if !more {
          Untouched(f, fuel, tag, sz, p, w);
        } else if p + sz < 0 {
          ok := false;
        } else {
          pos := p + sz;
        }
      }
    }

    method Dispatch(fuel: nat, tag: int, sz: int, w: Option<Poi>) returns (ok: bool, more: bool, w': Option<Poi>)
      modifies this
      ensures Stepped(HandleTag(f, fuel, tag, sz, old(pos), w), ok, more, w', pos, old(list), list)
      decreases fuel, 1
    {
      ok, more, w' := true, true, w;
      if WaypointTag(tag) {
        if w.None? {
          return false, more, w';
        }
        var r;
        ok, r := GetDetail(tag, w.value);
        w' := Some(r);
      } else if SkippedTag(tag) {
      } else if tag == 0x7 {
        var s;
        pos := pos + 2;
        ok, s := GetString();
      } else if fuel == 0 {
        ok := false;
      } else if tag == 0x2 || tag == 0x80002 {
        ok := GetPoi(fuel - 1, sz, tag);
      } else if tag == 0x80008 {
        ok := GetList(fuel - 1, sz);
      } else if tag == 0x9 || tag == 0x80009 {
        ok := GetGroup(fuel - 1, sz, tag);
      } else {
        more := false;
      }
    }

    // Tags up to the end of the enclosing record.
    method TagLoop(fuel: nat, end: int, w: Option<Poi>) returns (ok: bool, w': Option<Poi>)
      modifies this
      ensures match ReadTags(f, fuel, end, old(pos), w, [])
        case Stop => !ok
        case Got(s, p) => ok && pos == p && w' == s.wpt && list == old(list) + s.found
      decreases fuel, 3
    {
      ghost var target, before, found: seq<Poi> := ReadTags(f, fuel, end, pos, w, []), list, [];
      var left: nat, tag, more := fuel, 0, true;
      ok, w' := true, w;
      while pos < end
        invariant left <= fuel && list == before + found && ok
        invariant ReadTags(f, left, end, pos, w', found) == target
        decreases left
      {
        if left == 0 {
          return false, w';
        }
        left := left - 1;
        ok, tag := GetInt32();
        if !ok {
          return;
        }
        ghost var added := ReadTag(f, left, tag, pos, w');
        ok, more, w' := HandleOne(left, tag, w');
        if !ok {
          return;
        }
        Associate(before, found, added.val.found);
        found := found + added.val.found;
        if !more {
          break;
        }
      }
    }

    method GetPoi(fuel: nat, sz: int, tag: int) returns (ok: bool)
      modifies this
      ensures Added(ReadPoi(f, fuel, sz, tag, old(pos)), ok, pos, old(list), list)
      decreases fuel, 4
    {
      if tag == 0x80002 {
        pos := pos + 4;
      }
      var start := pos;
      if pos < 0 || pos + 11 > |f| {
        return false;
      }
      var lat := SemiToDeg(S32(f[pos..pos + 4]));
      var lon := SemiToDeg(S32(f[pos + 4..pos + 8]));
      var name, w;
      pos := pos + 11;
      ok, name := GetString();
      if !ok {
        return;
      }
      ok, w := TagLoop(fuel, Unsigned(start + sz - 4), Some(NewPoi(lat, lon, name)));
      if ok {
        if w.None? {
          ok := false;
        } else {
          list := list + [Shared(w.value)];
        }
      }
    }

    method GetList(fuel: nat, sz: int) returns (ok: bool)
      modifies this
      ensures Added(ReadList(f, fuel, sz, old(pos)), ok, pos, old(list), list)
      decreases fuel, 4
    {
      var start, w := pos, None;
      if pos < 0 || pos + 27 > |f| {
        return false;
      }
      pos := pos + 27;
      ok, w := TagLoop(fuel, Unsigned(start + sz - 4), None);
    }

    method GetGroup(fuel: nat, sz: int, tag: int) returns (ok: bool)
      modifies this
      ensures Added(ReadGroup(f, fuel, sz, tag, old(pos)), ok, pos, old(list), list)
      decreases fuel, 4
    {
      var start, name, w := pos, None, None;
      if tag == 0x80009 {
        if pos + 4 > |f| {
          return false;
        }
        pos := pos + 4;
      }
      ok, name := GetString();
      if !ok {
        return;
      }
      ok, w := TagLoop(fuel, Unsigned(start + sz), None);
    }

    /** The records of the file, up to the final tag. */
    method GetFile(fuel: nat) returns (ok: bool)
      modifies this
      ensures Added(ReadFile(f, fuel, old(pos), []), ok, pos, old(list), list)
    {
      ghost var target, before, found: seq<Poi> := ReadFile(f, fuel, pos, []), list, [];
      var left: nat, tag, more, w := fuel, 0, true, None;
      while true
        invariant left <= fuel && list == before + found
        invariant ReadFile(f, left, pos, found) == target
        decreases left
      {
        ok, tag := GetInt32();
        if !ok || tag == 0xffff {
          return;
        }
        if left == 0 {
          return false;
        }
        left := left - 1;
        ghost var added := ReadTag(f, left, tag, pos, None);
        ok, more, w := HandleOne(left, tag, None);
        if !ok {
          return;
        }
        Associate(before, found, added.val.found);
        found := found + added.val.found;
        if !more {
          return;
        }
      }
    }
  }

  /** Opened at a category the writer wrote, the file gives back exactly the waypoints, in the order of the blocks. */
  method ReadCategory(f: seq<Byte>, pos: nat, fuel: nat, ghost o: Options, ghost q: seq<Waypt>, ghost image: seq<Byte>)
    returns (ok: bool, list: seq<Poi>)
    requires GpiSplit.AllSane(q) && (forall w | w in q :: Fits(o, w)) && |o.category| + 4 < 32768
    requires At(f, pos, WriteCategory(o, Sized(o, GpiSplit.Split(q)), image) + Le32(0xffff))
    requires |f| < 0x8000_0000 && fuel > |f|
    ensures ok && list == AllExpected(o, Points(GpiSplit.Split(q))) && AllBack(o, Points(GpiSplit.Split(q)), list)
  {
    RoundTrip(f, pos, fuel, o, q, image);
    var r := new Reader(f);
    r.pos := pos;
    ok := r.GetFile(fuel);
    list := r.list;
  }

  // An unknown tag is left where it was met.
  lemma Untouched(f: seq<Byte>, fuel: nat, tag: int, sz: int, pos: int, w: Option<Poi>)
    requires var io := HandleTag(f, fuel, tag, sz, pos, w); io.Got? && !io.val.more
    ensures HandleTag(f, fuel, tag, sz, pos, w).pos == pos
  {
  }
}
