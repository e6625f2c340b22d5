// The 1-to-6-byte UTF-8 of section 2 of RFC 2279, as the encoder and the decoder of cet.c have it.
module Utf8 {
  import opened Bytes

  // What a pointer into a NUL-terminated string reads: NUL at its end.
  function ByteAt(s: seq<Byte>, i: nat): Byte {
    if i < |s| then s[i] else 0
  }

  predicate NoNul(s: seq<Byte>) {
    forall i | 0 <= i < |s| :: s[i] != 0
  }

  // ---------------------------------------------------------------- encoding

  const LIMIT := 0x8000_0000

  predicate Encodable(v: int) {
    0 <= v < LIMIT
  }

  // Values below this fit a sequence of n bytes.
  function Capacity(n: nat): nat {
    if n <= 1 then 0x80 else if n == 2 then 0x800 else if n == 3 then 0x1_0000
    else if n == 4 then 0x20_0000 else if n == 5 then 0x400_0000 else LIMIT
  }

  function Length(v: int): (n: nat)
    requires Encodable(v)
    ensures 1 <= n <= 6 && v < Capacity(n) && (n > 1 ==> Capacity(n - 1) <= v)
  {
    if v < 0x80 then 1 else if v < 0x800 then 2 else if v < 0x1_0000 then 3
    else if v < 0x20_0000 then 4 else if v < 0x400_0000 then 5 else 6
  }

  // v without its k lowest groups of six bits.
  function Shifted(v: nat, k: nat): nat {
    if k == 0 then v else Shifted(v / 64, k - 1)
  }

  // The k lowest groups of six bits, as continuation bytes.
  function Tail(v: nat, k: nat): (r: seq<Byte>)
    ensures |r| == k
  {
    if k == 0 then [] else Tail(v / 64, k - 1) + [0x80 + v % 64]
  }

  // The lead byte of n bytes announces n in unary: n ones and a zero.
  function LeadBase(n: nat): nat {
    if n == 2 then 0xC0 else if n == 3 then 0xE0 else if n == 4 then 0xF0 else if n == 5 then 0xF8 else 0xFC
  }

  // What is left for the value in the lead byte.
  function LeadRoom(n: nat): (r: nat)
    ensures r > 0
  {
    if n == 2 then 32 else if n == 3 then 16 else if n == 4 then 8 else if n == 5 then 4 else if n == 6 then 2 else 1
  }

  lemma LeadFits(v: nat, n: nat)
    requires Encodable(v) && 2 <= n <= 6 && v < Capacity(n)
    ensures Shifted(v, n - 1) < LeadRoom(n)
  {
    ShiftedFive(v);
  }

  // The shifts by 6, 12, 18, 24 and 30 bits.
  lemma ShiftedFive(v: nat)
    ensures Shifted(v, 1) == v / 64 && Shifted(v, 2) == v / 4096 && Shifted(v, 3) == v / 262144
    ensures Shifted(v, 4) == v / 16777216 && Shifted(v, 5) == v / 1073741824
  {
    assert Shifted(v, 1) == v / 64;
    assert Shifted(v, 2) == Shifted(v / 64, 1) == v / 64 / 64;
    assert Shifted(v, 3) == Shifted(v / 64, 2) == Shifted(v / 64 / 64, 1) == v / 64 / 64 / 64;
    assert Shifted(v, 4) == Shifted(v / 64, 3) == Shifted(v / 64 / 64, 2) == v / 64 / 64 / 64 / 64;
    assert Shifted(v, 5) == Shifted(v / 64, 4) == Shifted(v / 64 / 64, 3) == v / 64 / 64 / 64 / 64 / 64;
  }

  function Encode(v: int): (r: seq<Byte>)
    ensures Encodable(v) ==> |r| == Length(v)
    ensures !Encodable(v) ==> r == []
  {
    if !Encodable(v) then []
    else if v < 0x80 then [v]
    else
      var n := Length(v);
      LeadFits(v, n);
      [LeadBase(n) + Shifted(v, n - 1)] + Tail(v, n - 1)
  }

  // ---------------------------------------------------------------- decoding

  datatype Decoded = Decoded(ok: bool, bytes: nat, value: int)

  predicate Continuation(b: Byte) {
    0x80 <= b < 0xC0
  }

  // How many continuation bytes a byte leads, 0 if it leads none. The frame of 0xFE has no room in its lead.
  function FrameOf(b: Byte): (n: nat)
    ensures n <= 6
  {
    if b < 0xC0 then 0 else if b < 0xE0 then 1 else if b < 0xF0 then 2 else if b < 0xF8 then 3
    else if b < 0xFC then 4 else if b < 0xFE then 5 else if b < 0xFF then 6 else 0
  }

  // The continuation bytes behind position i, at most n of them.
  function Run(s: seq<Byte>, i: nat, n: nat): (k: nat)
    ensures k <= n && forall j | i < j <= i + k :: Continuation(ByteAt(s, j))
    ensures k < n ==> !Continuation(ByteAt(s, i + k + 1))
    decreases n
  {
    if n == 0 || !Continuation(ByteAt(s, i + 1)) then 0 else 1 + Run(s, i + 1, n - 1)
  }

  // A 32-bit int.
  function Wrap(x: int): (r: int)
    ensures -LIMIT <= r < LIMIT
    ensures -LIMIT <= x < LIMIT ==> r == x
  {
    var m := x % 0x1_0000_0000;
    if m < LIMIT then m else m - 0x1_0000_0000
  }

  // Six bits of each of k bytes from position i, shifted in from the right.
  function Gather(s: seq<Byte>, i: nat, k: nat, acc: int): int
    decreases k
  {
    if k == 0 then acc else Gather(s, i + 1, k - 1, Wrap(acc * 64 + ByteAt(s, i) % 64))
  }

  // The value of m continuation bytes behind position pos.
  function Value(s: seq<Byte>, pos: nat, m: nat): int {
    Gather(s, pos + 1, m, ByteAt(s, pos) % LeadRoom(m + 1))
  }

  // Tries the frame the byte at cp leads, if it is longer than those tried before. When it breaks off,
  // the search goes on from the byte that broke it; a value is still taken from position pos.
  function Attempt(s: seq<Byte>, pos: nat, cp: nat, tried: nat): Decoded
    decreases 6 - tried
  {
    var m := FrameOf(ByteAt(s, cp));
    if m <= tried then Decoded(false, 1, ByteAt(s, cp))
    else if Run(s, cp, m) == m then Decoded(true, m + 1, Value(s, pos, m))
    else Attempt(s, pos, cp + Run(s, cp, m) + 1, m)
  }

  function Decode(s: seq<Byte>, pos: nat): Decoded {
    if ByteAt(s, pos) < 0x80 then Decoded(true, 1, ByteAt(s, pos)) else Attempt(s, pos, pos, 0)
  }

  // ---------------------------------------------------------------- the round trip

  lemma {:induction false} GatherTail(s: seq<Byte>, i: nat, v: nat, k: nat)
    requires Encodable(v) && i + k <= |s| && s[i..i + k] == Tail(v, k)
    ensures Gather(s, i, k, Shifted(v, k)) == v
  {
    if k > 0 {
      var t := Tail(v, k);
      assert s[i..i + k - 1] == t[..k - 1] == Tail(v / 64, k - 1);
      GatherTail(s, i, v / 64, k - 1);
      GatherLast(s, i, k, Shifted(v, k));
      assert s[i + k - 1] == t[k - 1] == 0x80 + v % 64;
    }
  }

  // The last byte is shifted in last.
  lemma {:induction false} GatherLast(s: seq<Byte>, i: nat, k: nat, acc: int)
    requires k > 0
    ensures Gather(s, i, k, acc) == Wrap(Gather(s, i, k - 1, acc) * 64 + ByteAt(s, i + k - 1) % 64)
    decreases k
  {
    if k > 1 {
      GatherLast(s, i + 1, k - 1, Wrap(acc * 64 + ByteAt(s, i) % 64));
    }
  }

  lemma {:induction false} TailContinues(v: nat, k: nat, j: nat)
    requires j < k
    ensures Continuation(Tail(v, k)[j])
  {
    if j < k - 1 {
      TailContinues(v / 64, k - 1, j);
    }
  }

  lemma {:induction false} FullRun(s: seq<Byte>, i: nat, n: nat)
    requires forall j | i < j <= i + n :: Continuation(ByteAt(s, j))
    ensures Run(s, i, n) == n
    decreases n
  {
    if n > 0 {
      assert Continuation(ByteAt(s, i + 1));
      FullRun(s, i + 1, n - 1);
    }
  }

  /** Decoding what was encoded gives back the value and takes exactly its bytes, whatever comes behind. */
  lemma EncodeThenDecode(s: seq<Byte>, pos: nat, v: int)
    requires Encodable(v) && pos + |Encode(v)| <= |s| && s[pos..pos + |Encode(v)|] == Encode(v)
    ensures Decode(s, pos) == Decoded(true, |Encode(v)|, v)
  {
    var e, n := Encode(v), Length(v);
    assert s[pos] == e[0];
    if n > 1 {
      LeadFits(v, n);
      var m := n - 1;
      assert s[pos + 1..pos + 1 + m] == e[1..] == Tail(v, m);
      forall j | pos < j <= pos + m ensures Continuation(ByteAt(s, j)) {
        TailContinues(v, m, j - pos - 1);
        assert s[j] == e[j - pos] == Tail(v, m)[j - pos - 1];
      }
      FullRun(s, pos, m);
      GatherTail(s, pos + 1, v, m);
      LeadByte(n, Shifted(v, m));
    }
  }

  lemma LeadByte(n: nat, x: nat)
    requires 2 <= n <= 6 && x < LeadRoom(n)
    ensures FrameOf(LeadBase(n) + x) == n - 1 && (LeadBase(n) + x) % LeadRoom(n) == x && LeadBase(n) + x >= 0x80
  {
  }

  // ---------------------------------------------------------------- the shortest form

  // One whole sequence of the format: an ASCII byte, or a lead byte with the continuation bytes it announces.
  predicate Sequence(r: seq<Byte>) {
    && r != []
    && if r[0] < 0x80 then |r| == 1
       else 1 <= FrameOf(r[0]) <= 5 && |r| == FrameOf(r[0]) + 1 && forall j | 1 <= j < |r| :: Continuation(r[j])
  }

  function SequenceValue(r: seq<Byte>): int
    requires Sequence(r)
  {
    if r[0] < 0x80 then r[0] else Value(r, 0, |r| - 1)
  }

  lemma {:induction false} ShiftOnce(v: nat, k: nat)
    requires k > 0
    ensures Shifted(v, k) == Shifted(v, k - 1) / 64 && Shifted(v, k) <= v
  {
    if k > 1 {
      ShiftOnce(v / 64, k - 1);
    }
  }

  // A start value below `cap` shifted down by k groups stays below `cap` when k groups are shifted in.
  lemma {:induction false} GatherBound(s: seq<Byte>, i: nat, k: nat, acc: nat, cap: nat)
    requires acc < Shifted(cap, k) && cap <= LIMIT
    ensures 0 <= Gather(s, i, k, acc) < cap
    decreases k
  {
    if k > 0 {
      ShiftOnce(cap, k);
      if k > 1 { ShiftOnce(cap, k - 1); }
      GatherBound(s, i + 1, k - 1, acc * 64 + ByteAt(s, i) % 64, cap);
    }
  }

  // A lead byte's bits and those of m continuation bytes fit the capacity of m + 1 bytes.
  lemma LeadCapacity(m: nat)
    requires 1 <= m <= 5
    ensures Shifted(Capacity(m + 1), m) == LeadRoom(m + 1) && Capacity(m + 1) <= LIMIT
  {
    ShiftedFive(Capacity(m + 1));
  }

  lemma ValueBound(s: seq<Byte>, pos: nat, m: nat)
    requires 1 <= m <= 5
    ensures 0 <= Value(s, pos, m) < Capacity(m + 1)
  {
    LeadCapacity(m);
    GatherBound(s, pos + 1, m, ByteAt(s, pos) % LeadRoom(m + 1), Capacity(m + 1));
  }

  lemma {:induction false} GatherGives(r: seq<Byte>, i: nat, k: nat, acc: nat, cap: nat, v: nat)
    requires acc < Shifted(cap, k) && cap <= LIMIT && i + k <= |r|
    requires (forall j | i <= j < i + k :: Continuation(r[j])) && v == Gather(r, i, k, acc)
    ensures Shifted(v, k) == acc && Tail(v, k) == r[i..i + k]
    decreases k
  {
    if k > 0 {
      var w := Gather(r, i, k - 1, acc);
      GatherLast(r, i, k, acc);
      GatherBound(r, i, k, acc, cap);
      WithoutLast(r, i, k, acc, cap);
      assert v == w * 64 + r[i + k - 1] % 64;
      GatherGives(r, i, k - 1, acc, cap / 64, w);
      assert r[i..i + k] == r[i..i + k - 1] + [r[i + k - 1]];
    }
  }

  lemma WithoutLast(r: seq<Byte>, i: nat, k: nat, acc: nat, cap: nat)
    requires k > 0 && acc < Shifted(cap, k) && cap <= LIMIT
    ensures var w := Gather(r, i, k - 1, acc);
      0 <= w < cap / 64 && Wrap(w * 64 + ByteAt(r, i + k - 1) % 64) == w * 64 + ByteAt(r, i + k - 1) % 64
  {
    GatherBound(r, i, k - 1, acc, cap / 64);
  }

  /** The encoding is the shortest of all sequences with that value, and the only one that short. */
  lemma EncodingIsShortest(r: seq<Byte>)
    requires Sequence(r)
    ensures Encodable(SequenceValue(r)) && |Encode(SequenceValue(r))| <= |r|
    ensures |Encode(SequenceValue(r))| == |r| ==> Encode(SequenceValue(r)) == r
  {
    if r[0] >= 0x80 {
      LongSequence(r, |r| - 1);
    }
  }

  lemma LongSequence(r: seq<Byte>, m: nat)
    requires Sequence(r) && r[0] >= 0x80 && m == |r| - 1
    ensures var v := SequenceValue(r);
      Encodable(v) && v < Capacity(m + 1) && (Length(v) == m + 1 ==> Encode(v) == r)
  {
    var v, x := SequenceValue(r), r[0] % LeadRoom(m + 1);
    ValueBound(r, 0, m);
    LeadCapacity(m);
    GatherGives(r, 1, m, x, Capacity(m + 1), v);
    LeadSplits(r[0], m);
    if Length(v) == m + 1 {
      assert r == [r[0]] + r[1..1 + m];
    }
  }

  lemma LeadSplits(b: Byte, m: nat)
    requires FrameOf(b) == m && 1 <= m <= 5
    ensures LeadBase(m + 1) + b % LeadRoom(m + 1) == b
  {
  }

  // ---------------------------------------------------------------- scanning

  // A run of continuation bytes, and the byte that breaks it, lie before or at the end.
  lemma {:induction false} RunInside(s: seq<Byte>, i: nat, n: nat)
    requires i <= |s|
    ensures i + Run(s, i, n) <= |s| && (Run(s, i, n) > 0 ==> i + Run(s, i, n) < |s|)
    decreases n
  {
    if n > 0 && Continuation(ByteAt(s, i + 1)) {
      RunInside(s, i + 1, n - 1);
    }
  }

  /** The decoder never looks past the end: what it takes lies inside the string. */
  lemma {:induction false} AttemptStaysInside(s: seq<Byte>, pos: nat, cp: nat, tried: nat)
    requires pos <= cp <= |s| && pos < |s|
    ensures 1 <= Attempt(s, pos, cp, tried).bytes && pos + Attempt(s, pos, cp, tried).bytes <= |s|
    decreases 6 - tried
  {
    var m := FrameOf(ByteAt(s, cp));
    var k := Run(s, cp, m);
    if m > tried {
      RunInside(s, cp, m);
      var next := cp + k + 1;
      if k < m {
        assert cp < |s|;
        AttemptStaysInside(s, pos, next, m);
      }
    }
  }

  lemma DecodeStaysInside(s: seq<Byte>, pos: nat)
    requires pos < |s|
    ensures 1 <= Decode(s, pos).bytes && pos + Decode(s, pos).bytes <= |s|
  {
    if s[pos] >= 0x80 {
      AttemptStaysInside(s, pos, pos, 0);
    }
  }

  lemma EncodeFits(v: int, n: nat)
    requires 0 <= v < Capacity(n) && 1 <= n <= 6
    ensures |Encode(v)| <= n
  {
  }

  lemma FrameShrinks(s: seq<Byte>, pos: nat, m: nat)
    requires 1 <= m <= 6
    ensures |Encode(Value(s, pos, m))| <= m + 1
  {
    if m <= 5 {
      ValueBound(s, pos, m);
      EncodeFits(Value(s, pos, m), m + 1);
    }
  }

  // What is accepted is the value of one frame.
  lemma {:induction false} AttemptTakes(s: seq<Byte>, pos: nat, cp: nat, tried: nat) returns (m: nat)
    requires Attempt(s, pos, cp, tried).ok
    ensures 1 <= m <= 6 && Attempt(s, pos, cp, tried) == Decoded(true, m + 1, Value(s, pos, m))
    decreases 6 - tried
  {
    m := FrameOf(ByteAt(s, cp));
    var k := Run(s, cp, m);
    if k < m {
      var next := cp + k + 1;
      m := AttemptTakes(s, pos, next, m);
    }
  }

  /** Encoding a decoded value again never takes more bytes than were read. */
  lemma DecodeShrinks(s: seq<Byte>, pos: nat)
    ensures var d := Decode(s, pos); d.ok ==> |Encode(d.value)| <= d.bytes
  {
    if ByteAt(s, pos) >= 0x80 && Decode(s, pos).ok {
      var m := AttemptTakes(s, pos, pos, 0);
      FrameShrinks(s, pos, m);
    }
  }

  // ---------------------------------------------------------------- what the decoder accepts

  // A lead byte with all its continuation bytes behind it.
  predicate CompleteAt(s: seq<Byte>, i: nat) {
    var m := FrameOf(ByteAt(s, i));
    m > 0 && forall k | i < k <= i + m :: Continuation(ByteAt(s, k))
  }

  predicate WellFramed(s: seq<Byte>, pos: nat) {
    ByteAt(s, pos) < 0x80 || CompleteAt(s, pos)
  }

  // The frame led at i lacks a continuation byte, and the byte at j is the first in a place of one.
  predicate BrokenAt(s: seq<Byte>, i: nat, j: nat) {
    && i < j <= i + FrameOf(ByteAt(s, i)) && !Continuation(ByteAt(s, j))
    && forall k | i < k < j :: Continuation(ByteAt(s, k))
  }

  // Positions of lead bytes, each breaking the frame before it and leading a longer one; the last is complete.
  predicate Staircase(s: seq<Byte>, leads: seq<nat>) {
    && leads != []
    && (forall j | 0 <= j < |leads| - 1 :: BrokenAt(s, leads[j], leads[j + 1]) && FrameOf(ByteAt(s, leads[j])) < FrameOf(ByteAt(s, leads[j + 1])))
    && CompleteAt(s, leads[|leads| - 1])
  }

  lemma {:induction false} BrokenRun(s: seq<Byte>, i: nat, n: nat, j: nat)
    requires i < j <= i + n && !Continuation(ByteAt(s, j)) && forall k | i < k < j :: Continuation(ByteAt(s, k))
    ensures Run(s, i, n) == j - i - 1
    decreases n
  {
    if i + 1 < j {
      assert Continuation(ByteAt(s, i + 1));
      BrokenRun(s, i + 1, n - 1, j);
    }
  }

  lemma CompleteStair(s: seq<Byte>, pos: nat, i: nat, tried: nat)
    requires CompleteAt(s, i) && tried < FrameOf(ByteAt(s, i))
    ensures Attempt(s, pos, i, tried).ok && Attempt(s, pos, i, tried).bytes == FrameOf(ByteAt(s, i)) + 1
  {
    FullRun(s, i, FrameOf(ByteAt(s, i)));
  }

  lemma BrokenStair(s: seq<Byte>, pos: nat, i: nat, j: nat, tried: nat)
    requires BrokenAt(s, i, j) && tried < FrameOf(ByteAt(s, i))
    ensures Attempt(s, pos, i, tried) == Attempt(s, pos, j, FrameOf(ByteAt(s, i)))
  {
    BrokenRun(s, i, FrameOf(ByteAt(s, i)), j);
  }

  /** Up a staircase the decoder gets to the last frame, and takes its length. */
  lemma {:induction false} ClimbsUp(s: seq<Byte>, pos: nat, leads: seq<nat>, tried: nat)
    requires Staircase(s, leads) && tried < FrameOf(ByteAt(s, leads[0]))
    ensures Attempt(s, pos, leads[0], tried).ok
    ensures Attempt(s, pos, leads[0], tried).bytes == FrameOf(ByteAt(s, leads[|leads| - 1])) + 1
    decreases |leads|
  {
    if |leads| == 1 {
      CompleteStair(s, pos, leads[0], tried);
    } else {
      assert BrokenAt(s, leads[0], leads[1]);
      BrokenStair(s, pos, leads[0], leads[1], tried);
      assert forall j | 0 <= j < |leads[1..]| :: leads[1..][j] == leads[j + 1];
      ClimbsUp(s, pos, leads[1..], FrameOf(ByteAt(s, leads[0])));
    }
  }

  // What it accepted it got to by a staircase.
  lemma {:induction false} CameUp(s: seq<Byte>, pos: nat, cp: nat, tried: nat) returns (leads: seq<nat>)
    requires Attempt(s, pos, cp, tried).ok
    ensures Staircase(s, leads) && leads[0] == cp && tried < FrameOf(ByteAt(s, cp))
    decreases 6 - tried
  {
    var m := FrameOf(ByteAt(s, cp));
    var k := Run(s, cp, m);
    if k == m {
      leads := [cp];
    } else {
      var next := cp + k + 1;
      var rest := CameUp(s, pos, next, m);
      leads := [cp] + rest;
      Downstairs(s, cp, next, rest);
    }
  }

  lemma Downstairs(s: seq<Byte>, i: nat, j: nat, rest: seq<nat>)
    requires Staircase(s, rest) && rest[0] == j && BrokenAt(s, i, j) && FrameOf(ByteAt(s, i)) < FrameOf(ByteAt(s, j))
    ensures Staircase(s, [i] + rest)
  {
    var leads := [i] + rest;
    forall n | 0 <= n < |leads| - 1
      ensures BrokenAt(s, leads[n], leads[n + 1]) && FrameOf(ByteAt(s, leads[n])) < FrameOf(ByteAt(s, leads[n + 1]))
    {
      if n > 0 {
        assert leads[n] == rest[n - 1] && leads[n + 1] == rest[n];
      }
    }
  }

  /** The decoder accepts exactly the plain bytes and the positions where a staircase begins: lead bytes of
      ever longer frames, each at the place where the frame before lacks a continuation byte, up to a complete
      one. Well-formed sequences are the staircases of one step. */
  lemma DecoderAccepts(s: seq<Byte>, pos: nat)
    ensures Decode(s, pos).ok <==> ByteAt(s, pos) < 0x80 || exists leads :: Staircase(s, leads) && leads[0] == pos
    ensures WellFramed(s, pos) ==> Decode(s, pos).ok
  {
    if ByteAt(s, pos) >= 0x80 {
      if Decode(s, pos).ok {
        var leads := CameUp(s, pos, pos, 0);
      }
      if leads :| Staircase(s, leads) && leads[0] == pos {
        FrameLeads(s, leads);
        ClimbsUp(s, pos, leads, 0);
      }
      if CompleteAt(s, pos) {
        CompleteStair(s, pos, pos, 0);
      }
    }
  }

  lemma FrameLeads(s: seq<Byte>, leads: seq<nat>)
    requires Staircase(s, leads)
    ensures FrameOf(ByteAt(s, leads[0])) > 0
  {
    if |leads| > 1 {
      assert BrokenAt(s, leads[0], leads[1]);
    }
  }

  /** So it does accept ill-framed input: a two-byte lead broken by a three-byte sequence. */
  lemma IllFormedAccepted()
    ensures var s: seq<Byte> := [0xC3, 0xE2, 0x82, 0xAC];
      !WellFramed(s, 0) && Decode(s, 0).ok && Decode(s, 0).bytes == 3
  {
    var s: seq<Byte> := [0xC3, 0xE2, 0x82, 0xAC];
    assert ByteAt(s, 0) == 0xC3 && ByteAt(s, 1) == 0xE2 && ByteAt(s, 2) == 0x82 && ByteAt(s, 3) == 0xAC;
    assert CompleteAt(s, 1) && BrokenAt(s, 0, 1);
    ClimbsUp(s, 0, [0, 1], 0);
  }

  /** The encoding of every value, in numbers: the table of section 2 of RFC 2279. */
  lemma EncodeIs(v: int)
    requires Encodable(v)
    ensures Encode(v) ==
      if v < 0x80 then [v]
      else if v < 0x800 then [0xC0 + v / 64, 0x80 + v % 64]
      else if v < 0x1_0000 then [0xE0 + v / 4096, 0x80 + v / 64 % 64, 0x80 + v % 64]
      else if v < 0x20_0000 then [0xF0 + v / 262144, 0x80 + v / 4096 % 64, 0x80 + v / 64 % 64, 0x80 + v % 64]
      else if v < 0x400_0000 then
        [0xF8 + v / 16777216, 0x80 + v / 262144 % 64, 0x80 + v / 4096 % 64, 0x80 + v / 64 % 64, 0x80 + v % 64]
      else
        [0xFC + v / 1073741824, 0x80 + v / 16777216 % 64, 0x80 + v / 262144 % 64, 0x80 + v / 4096 % 64, 0x80 + v / 64 % 64, 0x80 + v % 64]
  {
    if v >= 0x80 {
      var n := Length(v);
      LeadFits(v, n);
      ShiftedFive(v);
      TailFive(v);
    }
  }

  lemma TailFive(v: nat)
    ensures Tail(v, 1) == [0x80 + v % 64] && Tail(v, 2) == [0x80 + v / 64 % 64, 0x80 + v % 64]
    ensures Tail(v, 3) == [0x80 + v / 4096 % 64, 0x80 + v / 64 % 64, 0x80 + v % 64]
    ensures Tail(v, 4) == [0x80 + v / 262144 % 64, 0x80 + v / 4096 % 64, 0x80 + v / 64 % 64, 0x80 + v % 64]
    ensures Tail(v, 5) == [0x80 + v / 16777216 % 64, 0x80 + v / 262144 % 64, 0x80 + v / 4096 % 64, 0x80 + v / 64 % 64, 0x80 + v % 64]
  {
    TailTwo(v);
    TailThree(v);
    TailFour(v);
    LongestTail(v);
  }

  lemma LongestTail(v: nat)
    ensures Tail(v, 5) == [0x80 + v / 16777216 % 64, 0x80 + v / 262144 % 64, 0x80 + v / 4096 % 64, 0x80 + v / 64 % 64, 0x80 + v % 64]
  {
    TailMore(v, 4);
    TailFour(v / 64);
    DivTwice(v, 64);
    DivTwice(v, 4096);
    DivTwice(v, 262144);
  }

  lemma TailFour(v: nat)
    ensures Tail(v, 4) == [0x80 + v / 262144 % 64, 0x80 + v / 4096 % 64, 0x80 + v / 64 % 64, 0x80 + v % 64]
  {
    TailMore(v, 3);
    TailThree(v / 64);
    DivTwice(v, 64);
    DivTwice(v, 4096);
  }

  lemma TailThree(v: nat)
    ensures Tail(v, 3) == [0x80 + v / 4096 % 64, 0x80 + v / 64 % 64, 0x80 + v % 64]
  {
    TailMore(v, 2);
    TailTwo(v / 64);
    DivTwice(v, 64);
  }

  lemma TailTwo(v: nat)
    ensures Tail(v, 1) == [0x80 + v % 64] && Tail(v, 2) == [0x80 + v / 64 % 64, 0x80 + v % 64]
  {
    TailMore(v, 0);
    TailMore(v, 1);
    TailMore(v / 64, 0);
  }

  lemma DivTwice(v: nat, b: nat)
    requires b in {64, 4096, 262144}
    ensures v / 64 / b == v / (64 * b)
  {
  }

  lemma TailMore(v: nat, k: nat)
    ensures Tail(v, k + 1) == Tail(v / 64, k) + [0x80 + v % 64] && Tail(v, 0) == []
  {
  }
}
