// DeLorme binary messages on the wire: checksum, frame and packets.
module DelbinFrame {
  import opened Bytes

  // ---------------------------------------------------------------- checksum

  // The sum of the little-endian 16-bit words; an odd last byte counts as a low byte.
  function WordSum(p: seq<Byte>): (x: int)
    ensures 0 <= x <= (|p| / 2) * 65535 + (if |p| % 2 == 1 then 255 else 0)
  {
    if p == [] then 0
    else if |p| == 1 then p[0]
    else U16(p[..2]) + WordSum(p[2..])
  }

  function Checksum(p: seq<Byte>): (c: int)
    ensures 0 <= c < 65536
  {
    (-WordSum(p)) % 65536
  }

  /** Over the longest buffer a 16-bit length can name, the signed 32-bit accumulator cannot
      overflow, and the words and their checksum sum to zero. */
  lemma ChecksumCancels(p: seq<Byte>)
    requires |p| <= 65535
    ensures WordSum(p) < 0x8000_0000
    ensures (WordSum(p) + Checksum(p)) % 65536 == 0
  {
    assert |p| / 2 <= 32767;
    CancelModulo(WordSum(p));
  }

  lemma CancelModulo(x: int)
    ensures (x + (-x) % 65536) % 65536 == 0
  {
  }

  lemma {:induction false} WordSumSplit(p: seq<Byte>, i: nat)
    requires i % 2 == 0 && i <= |p|
    ensures WordSum(p) == WordSum(p[..i]) + WordSum(p[i..])
  {
    if i == 0 {
      assert p[0..] == p;
    } else {
      WordSumSplit(p[2..], i - 2);
      assert p[..i][..2] == p[..2] && p[..i][2..] == p[2..][..i - 2] && p[2..][i - 2..] == p[i..];
    }
  }

  // Every byte with its weight: 1 at even places, 256 at odd ones.
  function WeightedSum(p: seq<Byte>): int {
    if p == [] then 0
    else
      var n := |p| - 1;
      WeightedSum(p[..n]) + if n % 2 == 0 then p[n] as int else 256 * p[n] as int
  }

  /** An odd last byte counts as if a zero stood behind it. */
  lemma OddLastByte(p: seq<Byte>, q: seq<Byte>)
    requires |p| % 2 == 1 && q == p + [0]
    ensures WordSum(q) == WordSum(p) && Checksum(q) == Checksum(p)
  {
    SumIsWeighted(p);
    SumIsWeighted(q);
    ZeroWeighs(p, q);
  }

  lemma ZeroWeighs(p: seq<Byte>, q: seq<Byte>)
    requires q == p + [0]
    ensures WeightedSum(q) == WeightedSum(p)
  {
    assert q[..|p|] == p;
  }

  /** The words add up to the bytes by their weights. */
  lemma {:induction false} SumIsWeighted(p: seq<Byte>)
    ensures WordSum(p) == WeightedSum(p)
    decreases |p|
  {
    if p != [] {
      var n := |p| - 1;
      var i := n / 2 * 2;
      SumIsWeighted(p[..i]);
      WordSumSplit(p, i);
      LastWord(p, i);
      if i < n {
        assert p[..n][..i] == p[..i];
      }
    }
  }

  // The one or two bytes from the last even place on.
  lemma LastWord(p: seq<Byte>, i: nat)
    requires i < |p| <= i + 2
    ensures WordSum(p[i..]) == p[i] as int + if i + 1 < |p| then 256 * p[i + 1] as int else 0
  {
    if i + 1 < |p| {
      assert p[i..] == [p[i], p[i + 1]] && [p[i], p[i + 1]][2..] == [];
    }
  }

  function WordEnd(p: seq<Byte>, i: nat): nat {
    if i + 2 <= |p| then i + 2 else |p|
  }

  // Equal but for one aligned 16-bit word, which may be the odd last byte.
  ghost predicate OneWordOff(sent: seq<Byte>, got: seq<Byte>, i: nat) {
    && |sent| == |got| && i % 2 == 0 && i < |sent|
    && var j := WordEnd(sent, i); sent[..i] == got[..i] && sent[j..] == got[j..] && sent[i..j] != got[i..j]
  }

  /** Replacing any one 16-bit word, or the odd last byte, by a different one changes the checksum. */
  lemma WordErrorDetected(sent: seq<Byte>, got: seq<Byte>, i: nat)
    requires OneWordOff(sent, got, i)
    ensures Checksum(sent) != Checksum(got)
  {
    if i + 2 <= |sent| {
      WordDiffers(sent, got, i, i + 2);
    } else {
      LastByteDiffers(sent, got, i);
    }
    DifferentNegations(WordSum(sent), WordSum(got));
  }

  lemma WordDiffers(sent: seq<Byte>, got: seq<Byte>, i: nat, j: nat)
    requires |sent| == |got| && i % 2 == 0 && j == i + 2 <= |sent|
    requires sent[..i] == got[..i] && sent[j..] == got[j..] && sent[i..j] != got[i..j]
    ensures 0 < WordSum(sent) - WordSum(got) < 65536 || -65536 < WordSum(sent) - WordSum(got) < 0
  {
    SumAround(sent, i);
    SumAround(got, i);
    DifferentWords(sent[i..j], got[i..j]);
  }

  lemma DifferentWords(w: seq<Byte>, v: seq<Byte>)
    requires |w| == 2 && |v| == 2 && w != v
    ensures U16(w) != U16(v)
  {
    assert w == [w[0], w[1]] && v == [v[0], v[1]];
  }

  lemma LastByteDiffers(sent: seq<Byte>, got: seq<Byte>, i: nat)
    requires OneWordOff(sent, got, i) && i + 1 == |sent|
    ensures 0 < WordSum(sent) - WordSum(got) < 65536 || -65536 < WordSum(sent) - WordSum(got) < 0
  {
    WordSumSplit(sent, i);
    WordSumSplit(got, i);
    LastWord(sent, i);
    LastWord(got, i);
    assert sent[i..i + 1] == [sent[i]] && got[i..i + 1] == [got[i]];
  }

  lemma SumAround(p: seq<Byte>, i: nat)
    requires i % 2 == 0 && i + 2 <= |p|
    ensures WordSum(p) == WordSum(p[..i]) + U16(p[i..i + 2]) + WordSum(p[i + 2..])
  {
    WordSumSplit(p, i);
    assert p[i..][..2] == p[i..i + 2] && p[i..][2..] == p[i + 2..];
  }

  lemma DifferentNegations(x: int, y: int)
    requires x != y && -65536 < x - y < 65536
    ensures (-x) % 65536 != (-y) % 65536
  {
  }

  // ---------------------------------------------------------------- frame

  function Header(id: int, size: int): (h: seq<Byte>)
    ensures |h| == 8
  {
    var head := [0xdb, 0xfe] + Le16(id) + Le16(size + 4);
    head + Le16(Checksum(head))
  }

  function Trailer(body: seq<Byte>): (t: seq<Byte>)
    ensures |t| == 4
  {
    Le16(Checksum(body)) + [0xad, 0xbc]
  }

  // Everything of a message that goes into packet payloads.
  function Frame(id: int, body: seq<Byte>): (f: seq<Byte>)
    ensures |f| == 8 + |body| + 4
  {
    Header(id, |body|) + body + Trailer(body)
  }

  // The bytes of a frame: two marks, id and length in little-endian order, both checksums so that what they cover
  // and they sum to a multiple of 65536 by weight, the body, two marks.
  predicate Framed(f: seq<Byte>, id: int, body: seq<Byte>) {
    var n := |body|;
    && |f| == n + 12 && f[0] == 0xdb && f[1] == 0xfe && f[2] as int + 256 * f[3] as int == id && f[4] as int + 256 * f[5] as int == n + 4
    && (WeightedSum(f[..6]) + f[6] as int + 256 * f[7] as int) % 65536 == 0 && f[8..n + 8] == body
    && (WeightedSum(body) + f[n + 8] as int + 256 * f[n + 9] as int) % 65536 == 0 && f[n + 10] == 0xad && f[n + 11] == 0xbc
  }

  /** The frame of a message, byte for byte. */
  lemma FrameIs(id: int, body: seq<Byte>)
    requires 0 <= id < 65536 && |body| + 4 < 65536
    ensures Framed(Frame(id, body), id, body)
  {
    var f, n := Frame(id, body), |body|;
    var head := [0xdb, 0xfe] + Le16(id) + Le16(n + 4);
    assert f[..6] == head;
    FrameEnds(f, head, body, Le16(Checksum(head)), Le16(Checksum(body)));
    SumCancels(head);
    SumCancels(body);
  }

  lemma FrameEnds(f: seq<Byte>, head: seq<Byte>, body: seq<Byte>, c: seq<Byte>, d: seq<Byte>)
    requires |head| == 6 && |c| == 2 && |d| == 2 && f == head + c + body + (d + [0xad, 0xbc])
    ensures var n := |body|; |f| == n + 12 && f[6] == c[0] && f[7] == c[1] && f[8..n + 8] == body && f[n + 8] == d[0] && f[n + 9] == d[1]
    ensures f[|body| + 10] == 0xad && f[|body| + 11] == 0xbc
  {
  }

  lemma SumCancels(p: seq<Byte>)
    ensures var c := Le16(Checksum(p)); (WeightedSum(p) + c[0] as int + 256 * c[1] as int) % 65536 == 0
  {
    SumIsWeighted(p);
    var x, c := WordSum(p), Checksum(p);
    Le16RoundTrip(c);
    assert U16(Le16(c)) == c;
    CancelModulo(x);
  }

  predicate HeaderOk(h: seq<Byte>)
    requires |h| == 8
  {
    h[0] == 0xdb && h[1] == 0xfe && Checksum(h[..6]) == U16(h[6..])
  }

  predicate BodyOk(body: seq<Byte>, trailer: seq<Byte>)
    requires |trailer| == 4
  {
    Checksum(body) == U16(trailer[..2]) && trailer[2] == 0xad && trailer[3] == 0xbc
  }

  lemma HeaderReads(id: int, size: int)
    requires 0 <= id < 65536 && 0 <= size && size + 4 < 65536
    ensures var h := Header(id, size); HeaderOk(h) && U16(h[2..4]) == id && U16(h[4..6]) == size + 4
  {
    var h := Header(id, size);
    var head := [0xdb, 0xfe] + Le16(id) + Le16(size + 4);
    assert h[..6] == head && h[6..] == Le16(Checksum(head));
    assert h[2..4] == Le16(id) && h[4..6] == Le16(size + 4);
  }

  lemma TrailerReads(body: seq<Byte>)
    ensures BodyOk(body, Trailer(body))
  {
    assert Trailer(body)[..2] == Le16(Checksum(body));
  }

  /** A body one of whose words was altered on the way fails the test against its trailer. */
  lemma AlteredBodyFails(sent: seq<Byte>, got: seq<Byte>, i: nat)
    requires OneWordOff(sent, got, i)
    ensures !BodyOk(got, Trailer(sent))
  {
    WordErrorDetected(sent, got, i);
    assert Trailer(sent)[..2] == Le16(Checksum(sent));
  }

  // ---------------------------------------------------------------- packets

  type Packet = seq<Byte>

  function Wrap(chunk: seq<Byte>): (p: Packet)
    requires |chunk| < 256
    ensures |p| == 2 + |chunk|
  {
    [0x20, |chunk|] + chunk
  }

  // `k` is the payload capacity, the packet size less two.
  function Packets(k: nat, f: seq<Byte>): seq<Packet>
    requires 0 < k < 256
  {
    if |f| <= k then [Wrap(f)] else [Wrap(f[..k])] + Packets(k, f[k..])
  }

  // How many payload bytes a packet declares.
  function Declared(p: Packet): int
    requires |p| >= 2
  {
    p[1]
  }

  predicate Complete(p: Packet) {
    |p| >= 2 && |p| >= 2 + Declared(p)
  }

  function Payload(p: Packet): (r: seq<Byte>)
    requires Complete(p)
    ensures |r| == Declared(p)
  {
    p[2..2 + Declared(p)]
  }

  function Payloads(ps: seq<Packet>): seq<Byte>
    requires forall p | p in ps :: Complete(p)
  {
    if ps == [] then [] else Payload(ps[0]) + Payloads(ps[1..])
  }

  lemma {:induction false} PacketsFit(k: nat, f: seq<Byte>)
    requires 0 < k < 256
    ensures forall p | p in Packets(k, f) :: 2 <= |p| <= k + 2 && |p| == 2 + Declared(p) && p[0] == 0x20
    ensures forall i | 0 <= i < |Packets(k, f)| - 1 :: |Packets(k, f)[i]| == k + 2
  {
    if |f| > k {
      PacketsFit(k, f[k..]);
    }
  }

  lemma PayloadOfWrap(chunk: seq<Byte>)
    requires |chunk| < 256
    ensures Complete(Wrap(chunk)) && Payload(Wrap(chunk)) == chunk
  {
  }

  lemma OnePayload(p: Packet, ps: seq<Packet>)
    requires Complete(p) && forall q | q in ps :: Complete(q)
    ensures (forall q | q in [p] + ps :: Complete(q)) && Payloads([p] + ps) == Payload(p) + Payloads(ps)
  {
    assert ([p] + ps)[1..] == ps;
  }

  lemma OneWrapped(c: seq<Byte>, ps: seq<Packet>)
    requires |c| < 256 && forall q | q in ps :: Complete(q)
    ensures (forall q | q in [Wrap(c)] + ps :: Complete(q)) && Payloads([Wrap(c)] + ps) == c + Payloads(ps)
  {
    PayloadOfWrap(c);
    OnePayload(Wrap(c), ps);
  }

  lemma {:induction false} PayloadsJoin(k: nat, f: seq<Byte>)
    requires 0 < k < 256
    ensures (forall p | p in Packets(k, f) :: Complete(p)) && Payloads(Packets(k, f)) == f
  {
    if |f| <= k {
      OneWrapped(f, []);
    } else {
      var c, rest := f[..k], f[k..];
      PayloadsJoin(k, rest);
      OneWrapped(c, Packets(k, rest));
      assert c + rest == f;
    }
  }

  /** The packets of a frame are marked and counted, fill the packet size but for the last, and their payloads
      concatenate to the frame. */
  lemma PayloadsOfPackets(k: nat, f: seq<Byte>)
    requires 0 < k < 256
    ensures forall p | p in Packets(k, f) :: 2 <= |p| <= k + 2 && Complete(p) && p[0] == 0x20 && p[1] as int == |p| - 2
    ensures forall i | 0 <= i < |Packets(k, f)| - 1 :: |Packets(k, f)[i]| == k + 2
    ensures Payloads(Packets(k, f)) == f
  {
    PacketsFit(k, f);
    PayloadsJoin(k, f);
  }
}
