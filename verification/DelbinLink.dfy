// The DeLorme packet layer in its own imperative form: a message buffer that is cut into packets
// by overwriting and restoring two bytes in place, and a receiver with a packet buffer and a
// cursor. Packet I/O is the environment: a queue of incoming packets and a log of outgoing ones.
module DelbinLink {
  import opened Bytes
  import opened DelbinFrame
  import opened DelbinStream

  /** The checksum loop, over part of a buffer. */
  method ComputeChecksum(buf: array<Byte>, start: nat, n: nat) returns (c: int)
    requires start + n <= buf.Length && n <= 65535
    ensures c == Checksum(buf[start..start + n])
  {
    var x, p := 0, start;
    ghost var all := buf[start..start + n];
    ChecksumCancels(all);
    var i := n / 2;
    while i > 0
      invariant 0 <= i <= n / 2 && p == start + 2 * (n / 2 - i)
      invariant x + WordSum(buf[p..start + n]) == WordSum(all)
      invariant 0 <= x < 0x8000_0000
    {
      assert buf[p..start + n][..2] == [buf[p], buf[p + 1]] && buf[p..start + n][2..] == buf[p + 2..start + n];
      x := x + buf[p];
      p := p + 1;
      x := x + 256 * buf[p] as int;
      p := p + 1;
      i := i - 1;
    }
    if n % 2 == 1 {
      x := x + buf[p];
    }
    c := (-x) % 65536;
  }

  // Outgoing packets, in order.
  class Port {
    var sent: seq<Packet>

    constructor ()
      ensures sent == []
    {
      sent := [];
    }

    method PacketWrite(buf: array<Byte>, start: nat, n: nat)
      requires start + n <= buf.Length
      modifies this
      ensures sent == old(sent) + [buf[start..start + n]]
    {
      sent := sent + [buf[start..start + n]];
    }
  }

  class Message {
    var size: nat
    var buf: array<Byte>

    // Room for two packet start bytes, header, data and trailer.
    ghost predicate Fits()
      reads this
    {
      2 + 8 + size + 4 <= buf.Length
    }

    ghost function Body(): seq<Byte>
      reads this, buf
      requires Fits()
    {
      buf[10..10 + size]
    }

    constructor (size: nat)
      ensures this.size == size && Fits() && fresh(buf)
    {
      this.size := size;
      buf := new Byte[2 + 8 + size + 4];
    }

    method EnsureSize(size: nat)
      modifies this
      ensures this.size == size && Fits()
      ensures buf == old(buf) || fresh(buf)
    {
      this.size := size;
      if buf.Length < 2 + 8 + size + 4 {
        buf := new Byte[2 + 8 + size + 4];
      }
    }
  }

  // buf differs from an earlier content only within [lo, hi).
  ghost predicate SameOutside(buf: array<Byte>, before: seq<Byte>, lo: nat, hi: nat)
    reads buf
  {
    buf.Length == |before| && forall i | 0 <= i < |before| && (i < lo || hi <= i) :: buf[i] == before[i]
  }

  method PutLe16(buf: array<Byte>, at: nat, x: int)
    requires at + 2 <= buf.Length
    modifies buf
    ensures buf[at..at + 2] == Le16(x)
    ensures SameOutside(buf, old(buf[..]), at, at + 2)
  {
    buf[at] := x % 256;
    buf[at + 1] := (x / 256) % 256;
  }

  method FillHeader(m: Message, id: int)
    requires m.Fits() && m.size + 4 < 65536
    modifies m.buf
    ensures m.buf[2..10] == Header(id, m.size)
    ensures SameOutside(m.buf, old(m.buf[..]), 2, 10)
  {
    var p := m.buf;
    p[2], p[3] := 0xdb, 0xfe;
    PutLe16(p, 4, id);
    PutLe16(p, 6, m.size + 4);
    ghost var head := [0xdb, 0xfe] + Le16(id) + Le16(m.size + 4);
    assert p[4] == p[4..6][0] && p[5] == p[4..6][1] && p[6] == p[6..8][0] && p[7] == p[6..8][1];
    assert p[2..8] == head;
    var chksum := ComputeChecksum(p, 2, 6);
    PutLe16(p, 8, chksum);
    assert p[2..10] == p[2..8] + p[8..10];
  }

  method FillTrailer(m: Message)
    requires m.Fits() && m.size + 4 < 65536
    modifies m.buf
    ensures m.buf[10 + m.size..14 + m.size] == Trailer(old(m.Body()))
    ensures SameOutside(m.buf, old(m.buf[..]), 10 + m.size, 14 + m.size)
  {
    var p, n := m.buf, 2 + 8 + m.size;
    var chksum := ComputeChecksum(p, 10, m.size);
    PutLe16(p, n, chksum);
    p[n + 2], p[n + 3] := 0xad, 0xbc;
    assert p[n..n + 2] == Le16(chksum);
    assert p[n..n + 4] == p[n..n + 2] + [0xad, 0xbc];
  }

  // Header and trailer go around the body, which the caller filled in.
  method FillFrame(m: Message, id: int)
    requires m.Fits() && m.size + 4 < 65536
    modifies m.buf
    ensures m.buf[2..14 + m.size] == Frame(id, old(m.Body()))
    ensures SameOutside(m.buf, old(m.buf[..]), 2, 14 + m.size) && m.Body() == old(m.Body())
  {
    ghost var body, n := m.Body(), 10 + m.size;
    FillHeader(m, id);
    assert m.Body() == body;
    ghost var header := m.buf[2..10];
    FillTrailer(m);
    assert m.buf[2..10] == header && m.Body() == body;
    assert m.buf[2..n + 4] == m.buf[2..10] + m.buf[10..n] + m.buf[n..n + 4];
  }

  // One packet: borrow two bytes for the packet start, send, put them back.
  method SendChunk(port: Port, buf: array<Byte>, p: nat, n: nat)
    requires p + 2 + n <= buf.Length && n < 256
    modifies port, buf
    ensures buf[..] == old(buf[..])
    ensures port.sent == old(port.sent) + [Wrap(old(buf[..])[p + 2..p + 2 + n])]
  {
    var save0, save1 := buf[p], buf[p + 1];
    ghost var chunk := buf[p + 2..p + 2 + n];
    buf[p] := 0x20;
    buf[p + 1] := n;
    assert buf[p..p + (2 + n)] == Wrap(chunk);
    port.PacketWrite(buf, p, 2 + n);
    buf[p] := save0;
    buf[p + 1] := save1;
  }

  /** Sends the frame as packets. The bytes borrowed for the packet starts are restored, so that
      afterwards the buffer holds the frame, intact, and nothing else has changed. */
  method MessageWrite(port: Port, packetSize: nat, id: int, m: Message)
    requires 2 < packetSize && packetSize - 2 < 256
    requires m.Fits() && m.size + 4 < 65536
    modifies port, m.buf
    ensures port.sent == old(port.sent) + Packets(packetSize - 2, Frame(id, old(m.Body())))
    ensures m.buf[2..14 + m.size] == Frame(id, old(m.Body()))
    ensures SameOutside(m.buf, old(m.buf[..]), 2, 14 + m.size) && m.Body() == old(m.Body())
  {
    ghost var f, k := Frame(id, m.Body()), packetSize - 2;
    ghost var target := port.sent + Packets(k, f);
    FillFrame(m, id);
    var buf, p := m.buf, 0;
    ghost var whole := buf[..];
    assert whole[2..2 + |f|] == f;
    var count := 8 + m.size + 4;
    assert f[0..] == f;
    while true
      invariant 0 < count && p + count == |f|
      invariant buf[..] == whole
      invariant port.sent + Packets(k, f[p..]) == target
      decreases count
    {
      var n := packetSize - 2;
      if n > count {
        n := count;
      }
      SendStep(k, port.sent, whole, f, p);
      SendChunk(port, buf, p, n);
      p := p + n;
      count := count - n;
      if count == 0 {
        break;
      }
    }
  }

  lemma SendStep(k: nat, sent: seq<Packet>, whole: seq<Byte>, f: seq<Byte>, p: nat)
    requires 0 < k < 256 && p < |f| && 2 + |f| <= |whole| && whole[2..2 + |f|] == f
    ensures var n := Min(k, |f| - p);
      && |whole[p + 2..p + 2 + n]| == n
      && sent + Packets(k, f[p..]) == (sent + [Wrap(whole[p + 2..p + 2 + n])]) + PacketsOrNone(k, f[p + n..])
  {
    var n, rest := Min(k, |f| - p), f[p..];
    assert rest[..n] == f[p..p + n] == whole[p + 2..p + 2 + n] && rest[n..] == f[p + n..];
    assert n == |rest| ==> rest[..n] == rest;
  }

  // ---------------------------------------------------------------- receiving

  lemma SliceOfFront(a: array<Byte>, n: nat, lo: nat, hi: nat)
    requires lo <= hi <= n <= a.Length
    ensures a[lo..hi] == a[..n][lo..hi]
  {
  }

  lemma IdOfHeader(h: seq<Byte>)
    requires |h| == 8
    ensures ([0, 0] + h)[4..6] == h[2..4]
  {
  }

  class Receiver {
    const packetSize: nat
    const k: nat                    // payload bytes that fit a packet
    const buf: array<Byte>          // the static packet buffer
    var bufI: nat
    var bufN: nat
    var input: seq<Packet>          // what the device will deliver
    ghost var view: Stream          // unread bytes and packets

    constructor (packetSize: nat, input: seq<Packet>)
      requires 2 <= packetSize
      requires forall p | p in input :: Complete(p) && |p| <= 258
      ensures Inv() && view == Stream([], input) && fresh(buf) && this.packetSize == packetSize
    {
      this.packetSize, k, this.input := packetSize, packetSize - 2, input;
      buf := new Byte[258];
      bufI, bufN, view := 0, 0, Stream([], input);
    }

    ghost predicate Inv()
      reads this, buf
    {
      && packetSize == k + 2 && buf.Length == 258 && bufI + bufN <= 258
      && (forall p | p in input :: Complete(p) && |p| <= 258)
      && view == Stream(buf[bufI..bufI + bufN], input)
    }

    method PacketRead() returns (n: nat)
      requires Inv() && input != []
      modifies this`input, buf
      ensures input == old(input)[1..] && n == |old(input)[0]| <= buf.Length && buf[..n] == old(input)[0]
    {
      var p := input[0];
      assert p in input;
      forall i | 0 <= i < |p| {
        buf[i] := p[i];
      }
      input := input[1..];
      n := |p|;
    }

    method OpenPacket()
      requires Inv() && input != [] && bufN == 0
      modifies this, buf
      ensures Inv() && view == OpenNext(k, old(view))
    {
      var p := input[0];
      assert p in view.inp && Complete(p);
      assert forall q | q in input[1..] :: q in input;
      var n := PacketRead();
      SliceOfFront(buf, n, 2, 2 + Declared(p));
      assert buf[1] == p[1] && buf[2..2 + Declared(p)] == Payload(p);
      if buf[1] <= packetSize - 2 {
        bufN, bufI := buf[1], 2;
      }
      view := Stream(buf[bufI..bufI + bufN], input);
    }

    method TakeUpTo(n: nat) returns (at: nat, got: nat)
      requires Inv()
      modifies this
      ensures Inv() && at + got <= buf.Length && got == Min(n, |old(view).cur|)
      ensures buf[at..at + got] == old(view).cur[..got]
      ensures view == old(view).(cur := old(view).cur[got..])
    {
      ghost var cur := view.cur;
      at := bufI;
      got := n;
      if got > bufN {
        got := bufN;
      }
      bufN := bufN - got;
      bufI := bufI + got;
      view := view.(cur := cur[got..]);
    }

    // Reads packets until one has payload to offer.
    method FillUp()
      requires Inv()
      modifies this, buf
      ensures Inv() && view == Refill(k, old(view))
    {
      ghost var target := Refill(k, view);
      while bufN == 0 && input != []
        invariant Inv() && Refill(k, view) == target
        decreases |input|, if bufN == 0 then 1 else 0
      {
        OpenPacket();
      }
    }

    /** At most n bytes from the payload of one packet; none when no packet is left. */
    method ReadDepacketize1(n: nat, newPacket: bool) returns (at: nat, got: nat)
      requires Inv() && n > 0
      modifies this, buf
      ensures Inv() && at + got <= buf.Length
      ensures (buf[at..at + got], view) == Grab(k, old(view), n, newPacket)
    {
      ghost var s := view;
      if newPacket {
        bufN, view := 0, view.(cur := []);
      }
      FillUp();
      at, got := TakeUpTo(n);
    }

    // One round: what one packet has of the request is copied out.
    method ReadSome(dest: array<Byte>, at: nat, left: nat) returns (at': nat)
      requires Inv() && at + left <= dest.Length && dest != buf && left > 0
      modifies this, buf, dest
      ensures Inv() && at <= at' <= at + left
      ensures (dest[at..at'], view) == Grab(k, old(view), left, false)
      ensures dest[..at] == old(dest[..at])
    {
      var p, got := ReadDepacketize1(left, false);
      ghost var bytes, v := buf[p..p + got], view;
      forall i | 0 <= i < got {
        dest[at + i] := buf[p + i];
      }
      at' := at + got;
      assert dest[at..at'] == bytes;
      assert view == v;
    }

    // The same round, seen against the whole request: dest[start..at] is in place so far.
    method ReadMore(dest: array<Byte>, start: nat, at: nat, left: nat, ghost result: Pulled)
      returns (ok: bool, at': nat, left': nat)
      requires Inv() && start <= at && at + left <= dest.Length && dest != buf && left > 0
      requires result == After(dest[start..at], Pull(k, view, left))
      modifies this, buf, dest
      ensures Inv() && start <= at' && at' + left' == at + left && left' <= left && dest[..start] == old(dest[..start])
      ensures ok ==> left' < left
      ensures result == if ok then After(dest[start..at'], Pull(k, view, left')) else Dry
    {
      ghost var v, done, front := view, dest[start..at], dest[..at];
      at' := ReadSome(dest, at, left);
      left', ok := left - (at' - at), at' != at;
      assert dest[..start] == front[..start] && dest[start..at] == front[start..];
      ghost var bytes, done' := dest[at..at'], dest[start..at'];
      JoinSlices(dest, start, at, at');
      PullFurther(k, result, done, v, left, bytes, view, done', left');
    }

    /** Reads across packets until the request is fulfilled. */
    method ReadDepacketize(dest: array<Byte>, start: nat, n: nat) returns (ok: bool)
      requires Inv() && start + n <= dest.Length && dest != buf
      modifies this, buf, dest
      ensures Inv()
      ensures Pull(k, old(view), n) == if ok then Pulled(dest[start..start + n], view) else Dry
      ensures dest[..start] == old(dest[..start])
    {
      ghost var front, result := dest[..start], Pull(k, view, n);
      var left, at := n, start;
      ok := true;
      while left > 0 && ok
        invariant Inv() && start <= at && at + left == start + n
        invariant dest[..start] == front
        invariant result == if ok then After(dest[start..at], Pull(k, view, left)) else Dry
        decreases left, ok
      {
        ok, at, left := ReadMore(dest, start, at, left, result);
      }
    }

    // Up to eight bytes, padded with zeros.
    method ReadHeader(newPacket: bool, hdr: array<Byte>) returns (got: bool)
      requires Inv() && hdr.Length == 8 && hdr != buf
      modifies this, buf, hdr
      ensures Inv()
      ensures var (bytes, s1) := Grab(k, old(view), 8, newPacket);
        view == s1 && (got <==> bytes != []) && hdr[..] == Pad8(bytes)
    {
      var at, n := ReadDepacketize1(8, newPacket);
      ghost var bytes, v := buf[at..at + n], view;
      forall i | 0 <= i < 8 {
        hdr[i] := if i < n then buf[at + i] else 0;
      }
      assert hdr[..] == Pad8(bytes);
      assert view == v;
      got := n != 0;
    }

    /** Tries the current position, then the beginning of each following packet. */
    method SeekHeader(hdr: array<Byte>) returns (found: bool)
      requires Inv() && hdr.Length == 8 && hdr != buf
      modifies this, buf, hdr
      ensures Inv()
      ensures FindHeader(k, old(view), false) == if found then Pulled(hdr[..], view) else Dry
    {
      ghost var target := FindHeader(k, view, false);
      found := ReadHeader(false, hdr);
      var good := TestHeader(hdr);
      while found && !good
        invariant Inv() && good == HeaderOk(hdr[..])
        invariant target == if !found then Dry else if good then Pulled(hdr[..], view) else FindHeader(k, view, true)
        decreases |view.inp|, found
      {
        found := ReadHeader(true, hdr);
        good := TestHeader(hdr);
      }
    }

    // One frame into the message buffer, with the verdict on its body.
    method ReadOne(m: Message, hdr: array<Byte>) returns (r: Outcome, sound: bool)
      requires Inv() && m.buf != buf && m.buf.Length >= 14 && hdr.Length == 8 && hdr != m.buf && hdr != buf
      modifies this, buf, m, m.buf, hdr
      ensures Inv() && m.buf != buf && hdr != m.buf && (m.buf == old(m.buf) || fresh(m.buf)) && m.buf.Length >= 14
      ensures match ReadFrame(k, old(view))
        case NoFrame => r == NoInput
        case ShortFrame => r == Stuck
        case FrameRead(id, data, rest) =>
          && r == Success(id) && view == rest && m.Fits() && m.buf[4..6] == hdr[2..4] && U16(hdr[2..4]) == id
          && m.Body() == data[..|data| - 4] && sound == Sound(data)
    {
      sound := false;
      var found := SeekHeader(hdr);
      if !found {
        return NoInput, sound;
      }
      var id, total := U16(hdr[2..4]), U16(hdr[4..6]);
      assert hdr[..][2..4] == hdr[2..4] && hdr[..][4..6] == hdr[4..6];
      if total < 4 {
        return Stuck, sound;
      }
      var ok;
      ok, sound := ReadBody(m, hdr, total);
      return if ok then Success(id) else NoInput, sound;
    }

    method ReadBody(m: Message, hdr: array<Byte>, total: nat) returns (ok: bool, sound: bool)
      requires Inv() && m.buf != buf && hdr.Length == 8 && hdr != m.buf && hdr != buf && 4 <= total < 65536
      modifies this, buf, m, m.buf
      ensures Inv() && m.buf != buf && hdr != m.buf && (m.buf == old(m.buf) || fresh(m.buf)) && m.buf.Length >= 14
      ensures hdr[..] == old(hdr[..])
      ensures match Pull(k, old(view), total)
        case Dry => !ok
        case Pulled(data, rest) =>
          && ok && view == rest && m.Fits() && m.buf[4..6] == hdr[2..4]
          && m.Body() == data[..total - 4] && sound == Sound(data)
    {
      m.EnsureSize(total - 4);
      ok, sound := ReadAndCheck(m, hdr, total);
    }

    method ReadAndCheck(m: Message, hdr: array<Byte>, total: nat) returns (ok: bool, sound: bool)
      requires Inv() && m.Fits() && total == m.size + 4 && m.buf != buf && hdr != m.buf && hdr != buf
      requires hdr.Length == 8 && total < 65536
      modifies this, buf, m.buf
      ensures Inv() && hdr[..] == old(hdr[..])
      ensures match Pull(k, old(view), total)
        case Dry => !ok
        case Pulled(data, rest) => ok && view == rest && m.Body() == data[..total - 4] && sound == Sound(data)
      ensures m.buf[4..6] == hdr[2..4]
    {
      ok := ReadRest(m, hdr, total);
      sound := false;
      if ok {
        sound := CheckBody(m);
        BodyAndTrailer(m.buf, m.size, total);
        SoundIs(m.Body(), m.buf[10 + m.size..14 + m.size], m.buf[10..10 + total], sound);
      }
    }

    // Header into the message buffer, then body and trailer behind it.
    method ReadRest(m: Message, hdr: array<Byte>, total: nat) returns (ok: bool)
      requires Inv() && m.Fits() && total == m.size + 4 && m.buf != buf && hdr != m.buf && hdr != buf
      requires hdr.Length == 8
      modifies this, buf, m.buf
      ensures Inv() && hdr[..] == old(hdr[..])
      ensures Pull(k, old(view), total) == if ok then Pulled(m.buf[10..10 + total], view) else Dry
      ensures m.buf[4..6] == hdr[2..4]
    {
      PutHeader(m.buf, hdr);
      ok := ReadDepacketize(m.buf, 10, total);
      SliceOfFront(m.buf, 10, 4, 6);
      IdOfHeader(hdr[..]);
      SliceOfFront(hdr, 8, 2, 4);
    }

    method PutHeader(dest: array<Byte>, hdr: array<Byte>)
      requires Inv() && dest.Length >= 10 && hdr.Length == 8 && dest != hdr && dest != buf
      modifies dest
      ensures dest[..10] == [0, 0] + hdr[..] && Inv()
    {
      dest[0], dest[1] := 0, 0;
      forall i | 0 <= i < 8 {
        dest[2 + i] := hdr[i];
      }
    }

    /** Reads one message. A damaged copy of the wanted one is reported as failure, of any other
        one skipped. */
    method MessageRead1(wanted: int, m: Message) returns (r: Outcome)
      requires Inv() && m.buf != buf && m.buf.Length >= 14
      modifies this, buf, m, m.buf
      ensures Inv() && m.buf != buf && (m.buf == old(m.buf) || fresh(m.buf)) && m.buf.Length >= 14
      ensures match ReadMessage(k, old(view), wanted)
        case Starved => r == NoInput
        case BadLength => r == Stuck
        case Corrupt(rest) => r == Failure && view == rest
        case Got(id, body, rest) => r == Success(id) && view == rest && m.Fits() && m.Body() == body && U16(m.buf[4..6]) == id
    {
      ghost var target := ReadMessage(k, view, wanted);
      var hdr := new Byte[8];
      while true
        invariant Inv() && m.buf != buf && hdr != m.buf && (m.buf == old(m.buf) || fresh(m.buf)) && m.buf.Length >= 14
        invariant fresh(hdr) && hdr.Length == 8 && ReadMessage(k, view, wanted) == target
        decreases |view.inp|, |view.cur|
      {
        var sound;
        r, sound := ReadOne(m, hdr);
        if r.NoInput? || r.Stuck? || sound {
          return;
        }
        if r.id == wanted {
          return Failure;
        }
      }
    }
  }

  method CheckBody(m: Message) returns (sound: bool)
    requires m.Fits() && m.size <= 65535
    ensures sound == BodyOk(m.Body(), m.buf[10 + m.size..14 + m.size])
  {
    var p := 10 + m.size;
    var c := ComputeChecksum(m.buf, 10, m.size);
    sound := c == U16(m.buf[p..p + 2]) && m.buf[p + 2] == 0xad && m.buf[p + 3] == 0xbc;
    assert m.buf[p..p + 4][..2] == m.buf[p..p + 2];
  }

  lemma JoinSlices(b: array<Byte>, lo: nat, mid: nat, hi: nat)
    requires lo <= mid <= hi <= b.Length
    ensures b[lo..hi] == b[lo..mid] + b[mid..hi]
  {
  }

  lemma BodyAndTrailer(b: array<Byte>, size: nat, total: nat)
    requires total == size + 4 && 10 + total <= b.Length
    ensures b[10..10 + total] == b[10..10 + size] + b[10 + size..14 + size]
  {
    JoinSlices(b, 10, 10 + size, 10 + total);
  }

  lemma SoundIs(body: seq<Byte>, trailer: seq<Byte>, data: seq<Byte>, sound: bool)
    requires data == body + trailer && |trailer| == 4 && sound == BodyOk(body, trailer)
    ensures sound == Sound(data) && body == data[..|data| - 4]
  {
    var n := |data| - 4;
    assert data[..n] == body && data[n..] == trailer;
  }

  datatype Outcome = NoInput | Stuck | Failure | Success(id: int)

  method TestHeader(hdr: array<Byte>) returns (good: bool)
    requires hdr.Length == 8
    ensures good == HeaderOk(hdr[..])
  {
    var c := ComputeChecksum(hdr, 0, 6);
    good := hdr[0] == 0xdb && hdr[1] == 0xfe && c == U16(hdr[6..8]);
    assert hdr[..][..6] == hdr[0..6] && hdr[..][6..] == hdr[6..8];
  }

  // What is still to be pulled completes `done` to the whole result.
  ghost function After(done: seq<Byte>, r: Pulled): Pulled {
    if r.Dry? then Dry else Pulled(done + r.bytes, r.rest)
  }

  lemma PullFurther(k: nat, result: Pulled, done: seq<Byte>, now: Stream, left: nat,
                    bytes: seq<Byte>, next: Stream, done': seq<Byte>, left': nat)
    requires Ok(now) && result == After(done, Pull(k, now, left))
    requires left > 0 && Grab(k, now, left, false) == (bytes, next)
    requires done' == done + bytes && left' == left - |bytes|
    ensures result == if bytes == [] then Dry else After(done', Pull(k, next, left'))
  {
    if bytes != [] {
      var r := Pull(k, next, left');
      assert r.Pulled? ==> done + (bytes + r.bytes) == done' + r.bytes;
    }
  }
}
