// What the DeLorme reader makes of a sequence of packets: reassembly, resynchronisation and
// message extraction, as functions of the unread bytes and packets.
module DelbinStream {
  import opened Bytes
  import opened DelbinFrame
  import opened Sequences

  // The rest of the current packet's payload, and the packets still to come.
  datatype Stream = Stream(cur: seq<Byte>, inp: seq<Packet>)

  predicate Ok(s: Stream) {
    forall p | p in s.inp :: Complete(p)
  }

  // The reader always moves forward: fewer packets, or fewer bytes of the same packet.
  predicate Later(a: Stream, b: Stream) {
    |a.inp| < |b.inp| || (|a.inp| == |b.inp| && |a.cur| <= |b.cur|)
  }

  // A packet that declares more than fits counts as empty, and an empty one is passed over.
  function OpenNext(k: nat, s: Stream): (r: Stream)
    requires Ok(s) && s.inp != []
    ensures Ok(r) && |r.inp| == |s.inp| - 1
  {
    var p := s.inp[0];
    assert p in s.inp;
    Stream(if Declared(p) <= k then Payload(p) else [], s.inp[1..])
  }

  function Refill(k: nat, s: Stream): (r: Stream)
    requires Ok(s)
    ensures Ok(r) && Later(r, s)
    ensures r.cur == [] ==> r.inp == []
    ensures s.cur != [] ==> r == s
    ensures s.cur == [] && s.inp != [] ==> |r.inp| < |s.inp|
    decreases |s.inp|
  {
    if s.cur != [] || s.inp == [] then s
    else Refill(k, OpenNext(k, s))
  }

  function Min(a: nat, b: nat): nat {
    if a < b then a else b
  }

  // Up to n bytes out of one packet; none only when the input has run dry.
  function Grab(k: nat, s: Stream, n: nat, newPacket: bool): (r: (seq<Byte>, Stream))
    requires Ok(s) && n > 0
    ensures Ok(r.1) && Later(r.1, s) && |r.0| <= n
    ensures r.0 != [] ==> |r.1.inp| < |s.inp| || (!newPacket && |r.1.inp| == |s.inp| && |r.1.cur| < |s.cur|)
  {
    var s1 := Refill(k, if newPacket then s.(cur := []) else s);
    var m := Min(n, |s1.cur|);
    (s1.cur[..m], s1.(cur := s1.cur[m..]))
  }

  datatype Pulled = Dry | Pulled(bytes: seq<Byte>, rest: Stream)

  function Pull(k: nat, s: Stream, n: nat): (r: Pulled)
    requires Ok(s)
    ensures r.Pulled? ==> |r.bytes| == n && Ok(r.rest) && Later(r.rest, s)
    decreases n
  {
    if n == 0 then Pulled([], s)
    else
      var (bytes, s1) := Grab(k, s, n, false);
      if bytes == [] then Dry
      else match Pull(k, s1, n - |bytes|)
        case Dry => Dry
        case Pulled(more, s2) => Pulled(bytes + more, s2)
  }

  function Pad8(b: seq<Byte>): (h: seq<Byte>)
    requires |b| <= 8
    ensures |h| == 8 && h[..|b|] == b
  {
    b + seq(8 - |b|, _ => 0)
  }

  // Tries the current position first, then the beginning of every following packet.
  function FindHeader(k: nat, s: Stream, newPacket: bool): (r: Pulled)
    requires Ok(s)
    ensures r.Pulled? ==> |r.bytes| == 8 && HeaderOk(r.bytes) && Ok(r.rest) && Later(r.rest, s)
    ensures r.Pulled? ==> |r.rest.inp| < |s.inp| || |r.rest.cur| < |s.cur|
    decreases |s.inp|, if newPacket then 0 else 1
  {
    var (bytes, s1) := Grab(k, s, 8, newPacket);
    if bytes == [] then Dry
    else if HeaderOk(Pad8(bytes)) then Pulled(Pad8(bytes), s1)
    else FindHeader(k, s1, true)
  }

  datatype ReadResult =
    | Starved                                          // waiting for more packets
    | BadLength                                        // a header whose length field is below 4
    | Corrupt(rest: Stream)                            // the wanted message, damaged
    | Got(id: int, body: seq<Byte>, rest: Stream)

  datatype FrameRead = NoFrame | ShortFrame | FrameRead(id: int, data: seq<Byte>, rest: Stream)

  // A header, and as many bytes as it announces: body and trailer.
  function ReadFrame(k: nat, s: Stream): (r: FrameRead)
    requires Ok(s)
    ensures r.FrameRead? ==> 4 <= |r.data| < 65536 && Ok(r.rest) && Later(r.rest, s)
    ensures r.FrameRead? ==> |r.rest.inp| < |s.inp| || |r.rest.cur| < |s.cur|
  {
    match FindHeader(k, s, false)
    case Dry => NoFrame
    case Pulled(h, s1) =>
      var total := U16(h[4..6]);
      if total < 4 then ShortFrame
      else match Pull(k, s1, total)
        case Dry => NoFrame
        case Pulled(data, s2) => FrameRead(U16(h[2..4]), data, s2)
  }

  predicate Sound(data: seq<Byte>)
    requires |data| >= 4
  {
    BodyOk(data[..|data| - 4], data[|data| - 4..])
  }

  function ReadMessage(k: nat, s: Stream, wanted: int): (r: ReadResult)
    requires Ok(s)
    ensures r.Got? || r.Corrupt? ==> Ok(r.rest)
    decreases |s.inp|, |s.cur|
  {
    match ReadFrame(k, s)
    case NoFrame => Starved
    case ShortFrame => BadLength
    case FrameRead(id, data, s1) =>
      if Sound(data) then Got(id, data[..|data| - 4], s1)
      else if id == wanted then Corrupt(s1)
      else ReadMessage(k, s1, wanted)
  }

  // ---------------------------------------------------------------- the byte stream underneath

  // All payload bytes still to be read.
  ghost function Flat(k: nat, s: Stream): seq<Byte>
    requires Ok(s)
    decreases |s.inp|
  {
    if s.inp == [] then s.cur
    else s.cur + Flat(k, OpenNext(k, s))
  }

  lemma {:induction false} RefillFlat(k: nat, s: Stream)
    requires Ok(s)
    ensures Flat(k, Refill(k, s)) == Flat(k, s)
    decreases |s.inp|
  {
    if s.cur == [] && s.inp != [] {
      RefillFlat(k, OpenNext(k, s));
    }
  }

  lemma FlatSplit(k: nat, s: Stream, m: nat)
    requires Ok(s) && m <= |s.cur|
    ensures Flat(k, s) == s.cur[..m] + Flat(k, s.(cur := s.cur[m..]))
  {
    assert s.cur == s.cur[..m] + s.cur[m..];
  }

  lemma GrabFlat(k: nat, s: Stream, n: nat)
    requires Ok(s) && n > 0
    ensures var (bytes, s1) := Grab(k, s, n, false);
      bytes + Flat(k, s1) == Flat(k, s) && (bytes == [] ==> Flat(k, s) == [])
  {
    RefillFlat(k, s);
    var s1 := Refill(k, s);
    FlatSplit(k, s1, Min(n, |s1.cur|));
  }

  lemma {:induction false} PullFlat(k: nat, s: Stream, n: nat)
    requires Ok(s)
    ensures Pull(k, s, n).Pulled? <==> n <= |Flat(k, s)|
    ensures Pull(k, s, n).Pulled? ==> Pull(k, s, n).bytes + Flat(k, Pull(k, s, n).rest) == Flat(k, s)
    decreases n
  {
    if n > 0 {
      GrabFlat(k, s, n);
      var (bytes, s1) := Grab(k, s, n, false);
      if bytes != [] {
        var left := n - |bytes|;
        PullFlat(k, s1, left);
        var r := Pull(k, s1, left);
        if r.Pulled? {
          PulledOn(k, s, bytes, r.bytes, r.rest, s1);
        }
      }
    }
  }

  lemma PulledOn(k: nat, s: Stream, bytes: seq<Byte>, more: seq<Byte>, rest: Stream, s1: Stream)
    requires Ok(s) && Ok(s1) && Ok(rest) && Flat(k, s) == bytes + Flat(k, s1) && more + Flat(k, rest) == Flat(k, s1)
    ensures bytes + more + Flat(k, rest) == Flat(k, s)
  {
    Associate(bytes, more, Flat(k, rest));
  }

  lemma Cut(a: seq<Byte>, b: seq<Byte>)
    ensures (a + b)[..|a|] == a && (a + b)[|a|..] == b
  {
  }

  lemma SameSplit(a: seq<Byte>, b: seq<Byte>, c: seq<Byte>, d: seq<Byte>)
    requires a + b == c + d && |a| == |c|
    ensures a == c && b == d
  {
    Cut(a, b);
    Cut(c, d);
  }

  lemma SoundFrame(body: seq<Byte>)
    ensures var data := body + Trailer(body); data[..|data| - 4] == body && Sound(data)
  {
    Cut(body, Trailer(body));
    TrailerReads(body);
  }

  // A header in the current packet, and the announced bytes behind it, are read as one frame.
  lemma ReadFrameAligned(k: nat, s: Stream, id: int, data: seq<Byte>, tail: seq<Byte>)
    requires Ok(s) && 0 <= id < 65536 && 4 <= |data| < 65536
    requires Flat(k, s) == Header(id, |data| - 4) + (data + tail)
    requires |Refill(k, s).cur| >= 8
    ensures var r := ReadFrame(k, s);
      r.FrameRead? && r.id == id && r.data == data && Flat(k, r.rest) == tail
  {
    var s1, h := Refill(k, s), Header(id, |data| - 4);
    RefillFlat(k, s);
    FlatSplit(k, s1, 8);
    var s2 := s1.(cur := s1.cur[8..]);
    SameSplit(s1.cur[..8], Flat(k, s2), h, data + tail);
    HeaderReads(id, |data| - 4);
    assert Pad8(h) == h;
    PullFlat(k, s2, |data|);
    var p := Pull(k, s2, |data|);
    SameSplit(p.bytes, Flat(k, p.rest), data, tail);
  }

  /** The reader extracts a message wherever its frame starts in the payload stream, in the middle
      of a packet or spread over many, as long as the eight header bytes lie in one packet. */
  lemma ReadAligned(k: nat, s: Stream, id: int, body: seq<Byte>, tail: seq<Byte>, wanted: int)
    requires Ok(s) && 0 <= id < 65536 && |body| + 4 < 65536
    requires Flat(k, s) == Header(id, |body|) + ((body + Trailer(body)) + tail)
    requires |Refill(k, s).cur| >= 8
    ensures var r := ReadMessage(k, s, wanted);
      r.Got? && r.id == id && r.body == body && Flat(k, r.rest) == tail
  {
    ReadFrameAligned(k, s, id, body + Trailer(body), tail);
    SoundFrame(body);
  }

  /** A damaged copy of a message, one body word altered, is never handed out: it is reported
      when it is the wanted one and skipped otherwise. */
  lemma AlteredNeverReturned(k: nat, s: Stream, id: int, sent: seq<Byte>, got: seq<Byte>, i: nat, tail: seq<Byte>, wanted: int)
    requires Ok(s) && 0 <= id < 65536 && |sent| + 4 < 65536 && OneWordOff(sent, got, i)
    requires Flat(k, s) == Header(id, |sent|) + ((got + Trailer(sent)) + tail)
    requires |Refill(k, s).cur| >= 8
    ensures exists s' ::
      && Ok(s') && Flat(k, s') == tail
      && ReadMessage(k, s, wanted) == (if id == wanted then Corrupt(s') else ReadMessage(k, s', wanted))
  {
    ReadFrameAligned(k, s, id, got + Trailer(sent), tail);
    Cut(got, Trailer(sent));
    AlteredBodyFails(sent, got, i);
  }

  // ---------------------------------------------------------------- writer to reader

  function PacketsOrNone(k: nat, f: seq<Byte>): seq<Packet>
    requires 0 < k < 256
  {
    if f == [] then [] else Packets(k, f)
  }

  lemma {:induction false} PacketsAreOk(k: nat, f: seq<Byte>, more: seq<Packet>)
    requires 0 < k < 256 && Ok(Stream([], more))
    ensures forall p | p in PacketsOrNone(k, f) + more :: Complete(p)
  {
    PacketsFit(k, f);
  }

  lemma OpenPackets(k: nat, f: seq<Byte>, more: seq<Packet>)
    requires 0 < k < 256 && f != [] && Ok(Stream([], more))
    ensures Ok(Stream([], Packets(k, f) + more))
    ensures Refill(k, Stream([], Packets(k, f) + more)) ==
      var j := Min(k, |f|); Stream(f[..j], PacketsOrNone(k, f[j..]) + more)
  {
    PacketsAreOk(k, f, more);
    var s := Stream([], Packets(k, f) + more);
    var j := Min(k, |f|);
    assert f[..|f|] == f;
    PayloadOfWrap(f[..j]);
    assert s.inp[0] == Wrap(f[..j]);
    assert s.inp[1..] == PacketsOrNone(k, f[j..]) + more;
    assert OpenNext(k, s) == Stream(f[..j], s.inp[1..]);
  }

  lemma PullCurrent(k: nat, c: seq<Byte>, inp: seq<Packet>, n: nat)
    requires Ok(Stream(c, inp)) && |c| <= n
    ensures Pull(k, Stream(c, inp), n) == match Pull(k, Stream([], inp), n - |c|)
      case Dry => Dry
      case Pulled(more, rest) => Pulled(c + more, rest)
  {
    if c == [] {
      var r := Pull(k, Stream([], inp), n);
      assert r.Pulled? ==> [] + r.bytes == r.bytes;
    } else {
      assert c[..|c|] == c && c[|c|..] == [];
      assert Grab(k, Stream(c, inp), n, false) == (c, Stream([], inp));
    }
  }

  lemma PullRefilled(k: nat, s: Stream, n: nat)
    requires Ok(s) && n > 0
    ensures Pull(k, s, n) == Pull(k, Refill(k, s), n)
  {
    var r := Refill(k, s);
    assert Refill(k, r) == r;
    assert Grab(k, s, n, false) == Grab(k, r, n, false);
  }

  lemma PullBoth(k: nat, c: seq<Byte>, inp: seq<Packet>, rest: seq<Byte>, after: Stream, n: nat)
    requires Ok(Stream([], inp)) && n == |c| + |rest| && Pull(k, Stream([], inp), |rest|) == Pulled(rest, after)
    ensures Pull(k, Stream(c, inp), n) == Pulled(c + rest, after)
  {
    PullCurrent(k, c, inp, n);
  }

  lemma {:induction false} PullPackets(k: nat, f: seq<Byte>, more: seq<Packet>)
    requires 0 < k < 256 && Ok(Stream([], more))
    ensures Ok(Stream([], PacketsOrNone(k, f) + more))
    ensures Pull(k, Stream([], PacketsOrNone(k, f) + more), |f|) == Pulled(f, Stream([], more))
    decreases |f|
  {
    PacketsAreOk(k, f, more);
    if f != [] {
      var rest := f[Min(k, |f|)..];
      PullPackets(k, rest, more);
      PullOpened(k, f, rest, more);
    } else {
      assert [] + more == more;
    }
  }

  lemma PullOpened(k: nat, f: seq<Byte>, rest: seq<Byte>, more: seq<Packet>)
    requires 0 < k < 256 && f != [] && rest == f[Min(k, |f|)..] && Ok(Stream([], more))
    requires Ok(Stream([], PacketsOrNone(k, rest) + more))
    requires Pull(k, Stream([], PacketsOrNone(k, rest) + more), |rest|) == Pulled(rest, Stream([], more))
    ensures Ok(Stream([], Packets(k, f) + more))
    ensures Pull(k, Stream([], Packets(k, f) + more), |f|) == Pulled(f, Stream([], more))
  {
    var c, n := f[..Min(k, |f|)], |f|;
    OpenPackets(k, f, more);
    PullRefilled(k, Stream([], Packets(k, f) + more), n);
    PullBoth(k, c, PacketsOrNone(k, rest) + more, rest, Stream([], more), n);
    assert c + rest == f;
  }

  // A payload whose first eight bytes, zero-padded, are no header.
  predicate NoHeader(b: seq<Byte>) {
    b != [] ==> !HeaderOk(Pad8(b[..Min(8, |b|)]))
  }

  predicate Junk(k: nat, p: Packet) {
    Complete(p) && (Declared(p) <= k ==> NoHeader(Payload(p)))
  }

  /** Resynchronisation: whatever stands in front that does not look like a header is dropped,
      packet by packet. */
  lemma {:induction false} SkipJunk(k: nat, cur: seq<Byte>, junk: seq<Packet>, rest: seq<Packet>, newPacket: bool)
    requires Ok(Stream([], rest)) && (forall p | p in junk :: Junk(k, p)) && (newPacket || NoHeader(cur))
    ensures Ok(Stream(cur, junk + rest))
    ensures FindHeader(k, Stream(cur, junk + rest), newPacket) == FindHeader(k, Stream([], rest), true)
    decreases |junk|, if newPacket then 0 else 1
  {
    var s := Stream(cur, junk + rest);
    if !newPacket {
      if cur == [] {
        SkipJunk(k, cur, junk, rest, true);
      } else {
        var m := Min(8, |cur|);
        SkipJunk(k, cur[m..], junk, rest, true);
      }
    } else if junk == [] {
      assert junk + rest == rest;
    } else {
      assert junk[0] in junk && forall p | p in junk[1..] :: p in junk;
      var s0 := Stream([], junk + rest);
      assert s0.inp[0] == junk[0] && s0.inp[1..] == junk[1..] + rest;
      var s1 := OpenNext(k, s0);
      if s1.cur == [] {
        SkipJunk(k, [], junk[1..], rest, true);
      } else {
        var m := Min(8, |s1.cur|);
        SkipJunk(k, s1.cur[m..], junk[1..], rest, true);
      }
    }
  }

  lemma FrameParts(id: int, body: seq<Byte>, j: nat)
    requires 8 <= j <= |Frame(id, body)|
    ensures var f := Frame(id, body);
      f[..j][..8] == Header(id, |body|) && f[..j][8..] + f[j..] == body + Trailer(body)
  {
    var f, h, rest := Frame(id, body), Header(id, |body|), body + Trailer(body);
    assert f == h + rest;
    Cut(h, rest);
    assert f[..j][..8] == f[..8] && f[..j][8..] + f[j..] == f[8..];
  }

  // The header of a frame comes out of its first packet.
  lemma HeaderFirst(k: nat, id: int, body: seq<Byte>, more: seq<Packet>)
    requires 8 <= k < 256 && 0 <= id < 65536 && |body| + 4 < 65536 && Ok(Stream([], more))
    ensures var f := Frame(id, body);
      var j := Min(k, |f|);
      && Ok(Stream([], Packets(k, f) + more))
      && FindHeader(k, Stream([], Packets(k, f) + more), true)
         == Pulled(Header(id, |body|), Stream(f[..j][8..], PacketsOrNone(k, f[j..]) + more))
      && f[..j][8..] + f[j..] == body + Trailer(body)
  {
    var f, h := Frame(id, body), Header(id, |body|);
    var j := Min(k, |f|);
    OpenPackets(k, f, more);
    FrameParts(id, body, j);
    HeaderReads(id, |body|);
    assert Pad8(h) == h;
  }

  /** What message_write sends, message_read_1 returns: the same id and body, leaving exactly the
      packets that follow, also with junk in front. */
  lemma MessageRoundTrip(k: nat, cur: seq<Byte>, junk: seq<Packet>, id: int, body: seq<Byte>, more: seq<Packet>, wanted: int)
    requires 8 <= k < 256 && 0 <= id < 65536 && |body| + 4 < 65536
    requires Ok(Stream([], more)) && NoHeader(cur) && (forall p | p in junk :: Junk(k, p))
    ensures Ok(Stream(cur, junk + (Packets(k, Frame(id, body)) + more)))
    ensures ReadMessage(k, Stream(cur, junk + (Packets(k, Frame(id, body)) + more)), wanted) == Got(id, body, Stream([], more))
  {
    var f := Frame(id, body);
    HeaderFirst(k, id, body, more);
    SkipJunk(k, cur, junk, Packets(k, f) + more, false);
    HeaderReads(id, |body|);
    var j := Min(k, |f|);
    PacketsAreOk(k, f[j..], more);
    PullCurrent(k, f[..j][8..], PacketsOrNone(k, f[j..]) + more, |body| + 4);
    PullPackets(k, f[j..], more);
    var s := Stream(cur, junk + (Packets(k, f) + more));
    assert ReadFrame(k, s) == FrameRead(id, body + Trailer(body), Stream([], more));
    SoundFrame(body);
  }

  datatype Sent = Sent(junk: seq<Packet>, id: int, body: seq<Byte>)

  predicate Sendable(k: nat, m: Sent) {
    0 <= m.id < 65536 && |m.body| + 4 < 65536 && forall p | p in m.junk :: Junk(k, p)
  }

  function Wire(k: nat, ms: seq<Sent>): seq<Packet>
    requires 8 <= k < 256
  {
    if ms == [] then [] else ms[0].junk + (Packets(k, Frame(ms[0].id, ms[0].body)) + Wire(k, ms[1..]))
  }

  // The next n messages.
  function Receive(k: nat, s: Stream, n: nat): seq<(int, seq<Byte>)>
    requires Ok(s)
    decreases n
  {
    if n == 0 then []
    else match ReadMessage(k, s, 0)
      case Got(id, body, s') => [(id, body)] + Receive(k, s', n - 1)
      case _ => []
  }

  lemma ReceiveStep(k: nat, s: Stream, n: nat, id: int, body: seq<Byte>, rest: Stream)
    requires Ok(s) && Ok(rest) && n > 0 && ReadMessage(k, s, 0) == Got(id, body, rest)
    ensures Receive(k, s, n) == [(id, body)] + Receive(k, rest, n - 1)
  {
  }

  function Contents(ms: seq<Sent>): seq<(int, seq<Byte>)> {
    if ms == [] then [] else [(ms[0].id, ms[0].body)] + Contents(ms[1..])
  }

  /** For any list of messages and any packet size that fits a header, the reader returns the same
      ids and bodies in the same order. */
  lemma {:induction false} AllMessagesArrive(k: nat, cur: seq<Byte>, ms: seq<Sent>)
    requires 8 <= k < 256 && NoHeader(cur) && forall m | m in ms :: Sendable(k, m)
    ensures Ok(Stream(cur, Wire(k, ms)))
    ensures Receive(k, Stream(cur, Wire(k, ms)), |ms|) == Contents(ms)
    decreases |ms|
  {
    if ms != [] {
      var m, rest := ms[0], ms[1..];
      assert m in ms && forall x | x in rest :: x in ms;
      AllMessagesArrive(k, [], rest);
      MessageRoundTrip(k, cur, m.junk, m.id, m.body, Wire(k, rest), 0);
      ReceiveStep(k, Stream(cur, Wire(k, ms)), |ms|, m.id, m.body, Stream([], Wire(k, rest)));
    }
  }
}
