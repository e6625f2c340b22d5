// The recursive GPI reader, as functions of the file and a position. Sizes steer it: every record is
// left by seeking to the end its size field announces.
module GpiReader {
  import opened Bytes
  import opened GpiFormat
  import opened GpiModel
  import opened Wrappers

  type Str = seq<Byte>

  // Stop: the program ends with a message, or does something this model does not follow (running off
  // the end inside a string, a waypoint's tag where there is no waypoint).
  datatype Io<T> = Stop | Got(val: T, pos: int)

  // A waypoint as read: positions in degrees, texts as the bytes found. `speed` is the number of centimetres
  // per second whose text in another unit is put behind the name and an '@' ("WPT" if there is no name).
  datatype Poi = Poi(lat: real, lon: real, name: Option<Str>, description: Option<Str>, notes: Option<Str>,
                     addr: Option<Str>, city: Option<Str>, country: Option<Str>, state: Option<Str>,
                     postalCode: Option<Str>, phoneNr: Option<Str>, phoneNr2: Option<Str>, faxNr: Option<Str>,
                     email: Option<Str>, links: seq<Str>, proximity: Option<int>, speed: Option<int>)

  function NewPoi(lat: real, lon: real, name: Option<Str>): Poi {
    Poi(lat, lon, name, None, None, None, None, None, None, None, None, None, None, None, [], None, None)
  }

  // What handling a tag leaves: whether to go on, the current waypoint, the waypoints completed.
  datatype Step = Step(more: bool, wpt: Option<Poi>, found: seq<Poi>)

  // ---------------------------------------------------------------- primitives

  function Int32(f: seq<Byte>, pos: int): Io<int> {
    if 0 <= pos && pos + 4 <= |f| then Got(S32(f[pos..pos + 4]), pos + 4) else Stop
  }

  function Int16(f: seq<Byte>, pos: int): Io<int> {
    if 0 <= pos && pos + 2 <= |f| then Got(S16(f[pos..pos + 2]), pos + 2) else Stop
  }

  // A 16-bit mask, whose bits are the same read signed or unsigned.
  function Mask16(f: seq<Byte>, pos: int): Io<nat> {
    if 0 <= pos && pos + 2 <= |f| then Got(U16(f[pos..pos + 2]), pos + 2) else Stop
  }

  function Take(f: seq<Byte>, pos: int, len: int): Io<Str> {
    if 0 <= pos && 0 <= len && pos + len <= |f| then Got(f[pos..pos + len], pos + len) else Stop
  }

  predicate Capital(b: Byte) {
    'A' as int <= b <= 'Z' as int
  }

  // gpi_read_string: a string with a language header, or a short one without.
  function ReadString(f: seq<Byte>, pos: int): Io<Option<Str>> {
    match Int16(f, pos)
    case Stop => Stop
    case Got(l1, p) =>
      if l1 <= 0 then Got(None, p)
      else if p >= |f| then Stop
      else if f[p] == 0 then ReadLong(f, p + 1, l1)
      else
        match Take(f, p, l1)
        case Stop => Stop
        case Got(s, p') => Got(Some(s), p')
  }

  function ReadLong(f: seq<Byte>, pos: int, l1: int): Io<Option<Str>> {
    match Take(f, pos, 3)
    case Stop => Stop
    case Got(h, p) =>
      match Int16(f, p)
      case Stop => Stop
      case Got(l2, p') =>
        if h[0] != 0 || l2 + 4 != l1 || !Capital(h[1]) || !Capital(h[2]) then Stop
        else
          match Take(f, p', if l2 > 0 then l2 else 0)
          case Stop => Stop
          case Got(s, p'') => Got(Some(s), p'')
  }

  // Reads a string if its bit is set; a string that comes out as NULL sets nothing.
  function ReadIf(f: seq<Byte>, pos: int, mask: nat, bit: nat, was: Option<Str>): Io<Option<Str>>
    requires bit > 0
  {
    if !HasBit(mask, bit) then Got(was, pos)
    else
      match ReadString(f, pos)
      case Stop => Stop
      case Got(s, p) => Got(if s.Some? then s else was, p)
  }

  // ---------------------------------------------------------------- tags of a waypoint

  // The address fields in the order they are stored: bit, value, update.
  function FieldBit(k: nat): nat {
    if k == 0 then ADDR_CITY else if k == 1 then ADDR_COUNTRY else if k == 2 then ADDR_STATE
    else if k == 3 then ADDR_POSTAL_CODE else ADDR_ADDR
  }

  function Field(w: Poi, k: nat): Option<Str> {
    if k == 0 then w.city else if k == 1 then w.country else if k == 2 then w.state else if k == 3 then w.postalCode else w.addr
  }

  function SetField(w: Poi, k: nat, s: Option<Str>): Poi {
    if k == 0 then w.(city := s) else if k == 1 then w.(country := s) else if k == 2 then w.(state := s)
    else if k == 3 then w.(postalCode := s) else w.(addr := s)
  }

  function ReadFields(f: seq<Byte>, pos: int, mask: nat, k: nat, w: Poi): Io<Poi>
    decreases 5 - k
  {
    if k >= 5 then Got(w, pos)
    else
      match ReadIf(f, pos, mask, FieldBit(k), Field(w, k))
      case Stop => Stop
      case Got(s, p) => ReadFields(f, p, mask, k + 1, SetField(w, k, s))
  }

  function ReadAddress(f: seq<Byte>, pos: int, w: Poi): Io<Poi> {
    match Mask16(f, pos)
    case Stop => Stop
    case Got(mask, p) => ReadFields(f, p, mask, 0, w)
  }

  function ReadPhone(f: seq<Byte>, pos: int, w: Poi): Io<Poi> {
    match Mask16(f, pos)
    case Stop => Stop
    case Got(mask, p) =>
      match ReadIf(f, p, mask, 1, w.phoneNr)
      case Stop => Stop
      case Got(phoneNr, p') => Got(w.(phoneNr := phoneNr), p')
  }

  function ReadContacts(f: seq<Byte>, pos: int, w: Poi): Io<Poi> {
    match Mask16(f, pos)
    case Stop => Stop
    case Got(mask, p0) =>
      match ReadIf(f, p0, mask, 1, w.phoneNr)
      case Stop => Stop
      case Got(phoneNr, p1) =>
        match ReadIf(f, p1, mask, 2, w.phoneNr2)
        case Stop => Stop
        case Got(phoneNr2, p2) =>
          match ReadIf(f, p2, mask, 4, w.faxNr)
          case Stop => Stop
          case Got(faxNr, p3) =>
            match ReadIf(f, p3, mask, 8, w.email)
            case Stop => Stop
            case Got(email, p4) =>
              match ReadIf(f, p4, mask, 16, None)
              case Stop => Stop
              case Got(link, p5) =>
                var links := if link.Some? then w.links + [link.value] else w.links;
                Got(w.(phoneNr := phoneNr, phoneNr2 := phoneNr2, faxNr := faxNr, email := email, links := links), p5)
  }

  // The name ends up with an '@' in it.
  predicate Marked(w: Poi) {
    w.speed.Some? || (w.name.Some? && '@' as int in w.name.value)
  }

  function Alerted(w: Poi, dist: int, speed: int): Poi {
    var r := if dist > 0 then w.(proximity := Some(dist)) else w;
    if speed > 0 && !Marked(w) then r.(speed := Some(speed)) else r
  }

  function ReadAlert(f: seq<Byte>, pos: int, w: Poi): Io<Poi> {
    match Int16(f, pos)
    case Stop => Stop
    case Got(dist, p) =>
      match Int16(f, p)
      case Stop => Stop
      case Got(speed, p') => if p' + 8 > |f| then Stop else Got(Alerted(w, dist, speed), p' + 8)
  }

  function ReadDescription(f: seq<Byte>, pos: int, w: Poi): Io<Poi> {
    match ReadString(f, pos)
    case Stop => Stop
    case Got(s, p) => Got(w.(description := s), p)
  }

  function ReadNotes(f: seq<Byte>, pos: int, w: Poi): Io<Poi> {
    match Take(f, pos, 1)
    case Stop => Stop
    case Got(mask, p) =>
      if mask[0] != 0x01 && mask[0] != 0x32 then Got(w, p)
      else
        match ReadString(f, p)
        case Stop => Stop
        case Got(s, p') => Got(if w.description.Some? then w.(notes := s) else w.(description := s), p')
  }

  // Tags that change the current waypoint.
  predicate WaypointTag(tag: int) {
    tag in {0x3, 0x80003, 0xa, 0xe, 0xb, 0x8000b, 0xc, 0x8000c}
  }

  function ReadDetail(f: seq<Byte>, tag: int, pos: int, w: Poi): Io<Poi>
    requires WaypointTag(tag)
  {
    if tag == 0x3 || tag == 0x80003 then ReadAlert(f, pos, w)
    else if tag == 0xa then ReadDescription(f, pos, w)
    else if tag == 0xe then ReadNotes(f, pos, w)
    else if tag == 0xc then ReadContacts(f, pos, w)
    else if tag == 0xb then ReadAddress(f, pos, w)
    else
      match Int32(f, pos)
      case Stop => Stop
      case Got(_, p) => if tag == 0x8000b then ReadAddress(f, p, w) else ReadPhone(f, p, w)
  }

  // ---------------------------------------------------------------- the tag loop

  predicate SkippedTag(tag: int) {
    tag in {0x4, 0x6, 0x5, 0x80012, 0xd, 0x11, 0x80007}
  }

  // Extended tags count the length of their sub-size field on top.
  function TagSize(tag: int, sz: int): int {
    if 0x80000 <= tag <= 0x800ff then sz + 4 else sz
  }

  function Unsigned(x: int): int {
    x % 0x1_0000_0000
  }

  function ReadTag(f: seq<Byte>, fuel: nat, tag: int, pos: int, w: Option<Poi>): Io<Step>
    decreases fuel, 2
  {
    match Int32(f, pos)
    case Stop => Stop
    case Got(size, p) =>
      var sz := TagSize(tag, size);
      match HandleTag(f, fuel, tag, sz, p, w)
      case Stop => Stop
      case Got(s, _) =>
        if !s.more then Got(s, p) else if p + sz < 0 then Stop else Got(s, p + sz)
  }

  function HandleTag(f: seq<Byte>, fuel: nat, tag: int, sz: int, pos: int, w: Option<Poi>): Io<Step>
    decreases fuel, 1
  {
    if WaypointTag(tag) then
      if w.None? then Stop
      else
        match ReadDetail(f, tag, pos, w.value)
        case Stop => Stop
        case Got(r, p) => Got(Step(true, Some(r), []), p)
    else if SkippedTag(tag) then Got(Step(true, w, []), pos)
    else if tag == 0x7 then
      match ReadString(f, pos + 2)
      case Stop => Stop
      case Got(_, p) => Got(Step(true, w, []), p)
    else if fuel == 0 then Stop
    else if tag == 0x2 || tag == 0x80002 then
      match ReadPoi(f, fuel - 1, sz, tag, pos)
      case Stop => Stop
      case Got(found, p) => Got(Step(true, w, found), p)
    else if tag == 0x80008 then
      match ReadList(f, fuel - 1, sz, pos)
      case Stop => Stop
      case Got(found, p) => Got(Step(true, w, found), p)
    else if tag == 0x9 || tag == 0x80009 then
      match ReadGroup(f, fuel - 1, sz, tag, pos)
      case Stop => Stop
      case Got(found, p) => Got(Step(true, w, found), p)
    else Got(Step(false, w, []), pos)
  }

  // Reads tags until the position passes `end` or an unknown tag turns up.
  function ReadTags(f: seq<Byte>, fuel: nat, end: int, pos: int, w: Option<Poi>, found: seq<Poi>): Io<Step>
    decreases fuel, 3
  {
    if pos >= end then Got(Step(true, w, found), pos)
    else if fuel == 0 then Stop
    else
      match Int32(f, pos)
      case Stop => Stop
      case Got(tag, p) =>
        match ReadTag(f, fuel - 1, tag, p, w)
        case Stop => Stop
        case Got(s, p') =>
          if s.more then ReadTags(f, fuel - 1, end, p', s.wpt, found + s.found)
          else Got(Step(false, s.wpt, found + s.found), p')
  }

  function Shared(w: Poi): Poi {
    var d := if w.notes.Some? && w.description.None? then w.notes else w.description;
    w.(description := d, notes := if d.Some? && w.notes.None? then d else w.notes)
  }

  function ReadPoi(f: seq<Byte>, fuel: nat, sz: int, tag: int, pos: int): Io<seq<Poi>>
    decreases fuel, 4
  {
    var start := if tag == 0x80002 then pos + 4 else pos;
    if start < 0 || start + 11 > |f| then Stop
    else
      var lat, lon := SemiToDeg(S32(f[start..start + 4])), SemiToDeg(S32(f[start + 4..start + 8]));
      match ReadString(f, start + 11)
      case Stop => Stop
      case Got(name, p) =>
        match ReadTags(f, fuel, Unsigned(start + sz - 4), p, Some(NewPoi(lat, lon, name)), [])
        case Stop => Stop
        case Got(s, p') => if s.wpt.None? then Stop else Got(s.found + [Shared(s.wpt.value)], p')
  }

  function ReadList(f: seq<Byte>, fuel: nat, sz: int, pos: int): Io<seq<Poi>>
    decreases fuel, 4
  {
    if pos < 0 || pos + 27 > |f| then Stop
    else
      match ReadTags(f, fuel, Unsigned(pos + sz - 4), pos + 27, None, [])
      case Stop => Stop
      case Got(s, p) => Got(s.found, p)
  }

  function ReadGroup(f: seq<Byte>, fuel: nat, sz: int, tag: int, pos: int): Io<seq<Poi>>
    decreases fuel, 4
  {
    if tag == 0x80009 && pos + 4 > |f| then Stop
    else
      match ReadString(f, if tag == 0x80009 then pos + 4 else pos)
      case Stop => Stop
      case Got(_, p) =>
        match ReadTags(f, fuel, Unsigned(pos + sz), p, None, [])
        case Stop => Stop
        case Got(s, p') => Got(s.found, p')
  }

  // The records of a file, up to the final tag.
  function ReadFile(f: seq<Byte>, fuel: nat, pos: int, found: seq<Poi>): Io<seq<Poi>>
    decreases fuel
  {
    match Int32(f, pos)
    case Stop => Stop
    case Got(tag, p) =>
      if tag == 0xffff then Got(found, p)
      else if fuel == 0 then Stop
      else
        match ReadTag(f, fuel - 1, tag, p, None)
        case Stop => Stop
        case Got(s, p') =>
          if s.more then ReadFile(f, fuel - 1, p', found + s.found) else Got(found + s.found, p')
  }
}
