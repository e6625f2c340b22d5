// The loops over UTF-8 strings: encoding into a buffer, decoding at a pointer, counting and copying.
module Utf8Strings {
  import opened Bytes
  import opened Utf8

  // ---------------------------------------------------------------- one value into a buffer

  lemma EncodeShort(v: int)
    requires Encodable(v)
    ensures 0x80 <= v < 0x800 ==> Encode(v) == [0xC0 + v / 64, 0x80 + v % 64]
    ensures 0x800 <= v < 0x1_0000 ==> Encode(v) == [0xE0 + v / 4096, 0x80 + v / 64 % 64, 0x80 + v % 64]
    ensures 0x1_0000 <= v < 0x20_0000 ==> Encode(v) == [0xF0 + v / 262144, 0x80 + v / 4096 % 64, 0x80 + v / 64 % 64, 0x80 + v % 64]
  {
    if v >= 0x80 {
      LeadFits(v, Length(v));
      ShiftedFive(v);
      Tails(v);
    }
  }

  lemma EncodeLong(v: int)
    requires Encodable(v)
    ensures 0x20_0000 <= v < 0x400_0000 ==>
      Encode(v) == [0xF8 + v / 16777216, 0x80 + v / 262144 % 64, 0x80 + v / 4096 % 64, 0x80 + v / 64 % 64, 0x80 + v % 64]
    ensures 0x400_0000 <= v ==>
      Encode(v) == [0xFC + v / 1073741824, 0x80 + v / 16777216 % 64, 0x80 + v / 262144 % 64, 0x80 + v / 4096 % 64, 0x80 + v / 64 % 64, 0x80 + v % 64]
  {
    if v >= 0x20_0000 {
      LeadFits(v, Length(v));
      ShiftedFive(v);
      LongTails(v);
    }
  }

  lemma Tails(v: nat)
    ensures Tail(v, 1) == [0x80 + v % 64] && Tail(v, 2) == [0x80 + v / 64 % 64, 0x80 + v % 64]
    ensures Tail(v, 3) == [0x80 + v / 4096 % 64, 0x80 + v / 64 % 64, 0x80 + v % 64]
  {
    assert Tail(v / 64, 1) == [0x80 + v / 64 % 64] && Tail(v / 4096, 1) == [0x80 + v / 4096 % 64];
    assert v / 64 / 64 == v / 4096;
    assert Tail(v / 64, 2) == Tail(v / 64 / 64, 1) + [0x80 + v / 64 % 64];
  }

  lemma LongTails(v: nat)
    ensures Tail(v, 4) == [0x80 + v / 262144 % 64, 0x80 + v / 4096 % 64, 0x80 + v / 64 % 64, 0x80 + v % 64]
    ensures Tail(v, 5) == [0x80 + v / 16777216 % 64, 0x80 + v / 262144 % 64, 0x80 + v / 4096 % 64, 0x80 + v / 64 % 64, 0x80 + v % 64]
  {
    var u := v / 64;
    assert u / 64 == v / 4096 && u / 4096 == v / 262144 && u / 64 / 4096 == v / 16777216;
    Tails(u);
    Tails(u / 64);
    assert Tail(u, 4) == Tail(u / 64, 3) + [0x80 + u % 64];
  }

  // Stores bytes into a buffer, unless there is none.
  method Store(dest: array?<Byte>, at: nat, bytes: seq<Byte>)
    requires dest != null ==> at + |bytes| <= dest.Length
    modifies dest
    ensures dest != null ==> dest[..] == old(dest[..at]) + bytes + old(dest[at + |bytes|..])
  {
    if dest != null {
      var i := 0;
      while i < |bytes|
        invariant i <= |bytes|
        invariant forall j | 0 <= j < dest.Length :: dest[j] == if at <= j < at + i then bytes[j - at] else old(dest[j])
      {
        dest[at + i] := bytes[i];
        i := i + 1;
      }
    }
  }

  /** Encodes a 32-bit value. A target too small is reported by how many bytes it lacks, and left alone. */
  method EncodeInto(dest: array?<Byte>, at: nat, size: nat, v: int) returns (result: int)
    requires -LIMIT <= v < LIMIT
    requires dest != null && |Encode(v)| <= size ==> at + |Encode(v)| <= dest.Length
    modifies dest
    ensures result == if |Encode(v)| <= size then |Encode(v)| else size - |Encode(v)|
    ensures dest != null ==>
      dest[..] == if result > 0 then old(dest[..at]) + Encode(v) + old(dest[at + |Encode(v)|..]) else old(dest[..])
  {
    if 0 <= v < 0x80 {
      if size < 1 { return size - 1; }
      Store(dest, at, [v]);
      result := 1;
    } else if 0 <= v < 0x800 {
      EncodeShort(v);
      if size < 2 { return size - 2; }
      Store(dest, at, [0xC0 + v / 64, 0x80 + v % 64]);
      result := 2;
    } else if 0 <= v < 0x1_0000 {
      EncodeShort(v);
      if size < 3 { return size - 3; }
      Store(dest, at, [0xE0 + v / 4096, 0x80 + v / 64 % 64, 0x80 + v % 64]);
      result := 3;
    } else if 0 <= v < 0x20_0000 {
      EncodeShort(v);
      if size < 4 { return size - 4; }
      Store(dest, at, [0xF0 + v / 262144, 0x80 + v / 4096 % 64, 0x80 + v / 64 % 64, 0x80 + v % 64]);
      result := 4;
    } else if 0 <= v < 0x400_0000 {
      EncodeLong(v);
      if size < 5 { return size - 5; }
      Store(dest, at, [0xF8 + v / 16777216, 0x80 + v / 262144 % 64, 0x80 + v / 4096 % 64, 0x80 + v / 64 % 64, 0x80 + v % 64]);
      result := 5;
    } else if 0 <= v {
      EncodeLong(v);
      if size < 6 { return size - 6; }
      Store(dest, at, [0xFC + v / 1073741824, 0x80 + v / 16777216 % 64, 0x80 + v / 262144 % 64, 0x80 + v / 4096 % 64,
                       0x80 + v / 64 % 64, 0x80 + v % 64]);
      result := 6;
    } else {
      result := 0;
    }
  }

  // ---------------------------------------------------------------- decoding at a pointer

  // `byte & mask`, for a mask of ones followed by zeros.
  function Masked(b: Byte, mask: nat): nat
    requires mask < 256
  {
    b - b % (256 - mask)
  }

  function FrameBits(len: nat): nat {
    if len == 1 then 0xC0 else if len == 2 then 0xE0 else if len == 3 then 0xF0 else if len == 4 then 0xF8
    else if len == 5 then 0xFC else 0xFE
  }

  lemma FrameTest(b: Byte, len: nat)
    requires 1 <= len <= 6
    ensures Masked(b, 256 - LeadRoom(len + 1)) == FrameBits(len) <==> FrameOf(b) == len
  {
  }

  lemma {:induction false} RunStops(s: seq<Byte>, i: nat, n: nat, k: nat)
    requires k < n && (forall j | i < j <= i + k :: Continuation(ByteAt(s, j))) && !Continuation(ByteAt(s, i + k + 1))
    ensures Run(s, i, n) == k
    decreases n
  {
    if k > 0 {
      assert Continuation(ByteAt(s, i + 1));
      RunStops(s, i + 1, n - 1, k - 1);
    }
  }

  // Follows a frame of len continuation bytes as far as it goes.
  method FollowFrame(s: seq<Byte>, start: nat, len: nat) returns (cp: nat, complete: bool)
    requires len > 0
    ensures complete == (Run(s, start, len) == len)
    ensures cp == if complete then start + len else start + Run(s, start, len) + 1
  {
    cp, complete := start, false;
    var i := len;
    while i > 0
      invariant 0 <= i <= len && cp == start + (len - i) && !complete
      invariant forall j | start < j <= cp :: Continuation(ByteAt(s, j))
      invariant i == 0 ==> len == 0
    {
      i := i - 1;
      cp := cp + 1;
      if !Continuation(ByteAt(s, cp)) {
        RunStops(s, start, len, cp - start - 1);
        return;
      } else if i == 0 {
        FullRun(s, start, len);
        complete := true;
        return;
      }
    }
  }

  // The search is the same from a later frame if the byte does not lead this one, and moves on if it breaks off.
  lemma NextFrame(s: seq<Byte>, pos: nat, cp: nat, cp': nat, len: nat)
    requires 1 <= len <= 6
    requires if FrameOf(ByteAt(s, cp)) != len then cp' == cp else Run(s, cp, len) < len && cp' == cp + Run(s, cp, len) + 1
    ensures Attempt(s, pos, cp, len - 1) == Attempt(s, pos, cp', len)
  {
  }

  /** The decoder: frame by frame, the pointer moving on whenever a frame breaks off. */
  method DecodeAt(s: seq<Byte>, pos: nat) returns (d: Decoded)
    ensures d == Decode(s, pos)
  {
    var cp: nat := pos;
    if ByteAt(s, cp) < 0x80 {
      return Decoded(true, 1, ByteAt(s, cp));
    }
    var bits, mask, len := 0xC0, 0xE0, 1;
    while len <= 6
      invariant 1 <= len <= 7 && (len <= 6 ==> bits == FrameBits(len) && mask == 256 - LeadRoom(len + 1))
      invariant Attempt(s, pos, cp, len - 1) == Decode(s, pos)
    {
      ghost var start := cp;
      FrameTest(ByteAt(s, cp), len);
      if Masked(ByteAt(s, cp), mask) == bits {
        var complete;
        cp, complete := FollowFrame(s, cp, len);
        if complete {
          var res := GatherValue(s, pos, len, mask);
          return Decoded(true, len + 1, res);
        }
      }
      NextFrame(s, pos, start, cp, len);
      bits := bits / 2 + 0x80;
      mask := mask / 2 + 0x80;
      len := len + 1;
    }
    d := Decoded(false, 1, ByteAt(s, cp));
  }

  method GatherValue(s: seq<Byte>, pos: nat, len: nat, mask: nat) returns (res: int)
    requires 1 <= len <= 6 && mask == 256 - LeadRoom(len + 1)
    ensures res == Value(s, pos, len)
  {
    var c := pos;
    res := ByteAt(s, c) % (256 - mask);
    c := c + 1;
    var i := len;
    while i > 0
      invariant 0 <= i <= len && Gather(s, c, i, res) == Value(s, pos, len)
    {
      i := i - 1;
      res := Wrap(res * 64 + ByteAt(s, c) % 64);
      c := c + 1;
    }
  }

  // ---------------------------------------------------------------- counting and copying

  // The values decoded from a position on, while `left` lasts. Bytes that do not decode are skipped.
  function Values(s: seq<Byte>, pos: nat, left: int): (r: seq<int>)
    ensures |r| <= if left > 0 then left else 0
    decreases |s| - pos
  {
    if pos >= |s| || left <= 0 then []
    else
      DecodeStaysInside(s, pos);
      var d := Decode(s, pos);
      if d.ok then [d.value] + Values(s, pos + d.bytes, left - 1) else Values(s, pos + d.bytes, left)
  }

  function EncodeAll(vs: seq<int>): seq<Byte> {
    if vs == [] then [] else Encode(vs[0]) + EncodeAll(vs[1..])
  }

  // What a C string of these bytes holds.
  function UpToNul(b: seq<Byte>): seq<Byte> {
    if b == [] || b[0] == 0 then [] else [b[0]] + UpToNul(b[1..])
  }

  function Count(s: seq<Byte>): nat {
    |Values(s, 0, |s|)|
  }

  // The checked copy of at most maxlen characters.
  function Ndup(s: seq<Byte>, maxlen: int): seq<Byte> {
    UpToNul(EncodeAll(Values(s, 0, maxlen)))
  }

  // Midway: the characters counted so far and those ahead make up all.
  ghost predicate Counting(s: seq<Byte>, cin: nat, len: nat, left: int, all: nat) {
    cin <= |s| && len <= cin && left == |s| - len && len + |Values(s, cin, left)| == all
  }

  method Strlen(s: seq<Byte>) returns (len: nat)
    requires NoNul(s)
    ensures len == Count(s)
  {
    var cin := 0;
    len := 0;
    ghost var left, all := |s|, Count(s);
    while cin < |s|
      invariant Counting(s, cin, len, left, all)
      decreases |s| - cin
    {
      cin, len, left := CountOne(s, cin, len, left, all);
    }
  }

  method CountOne(s: seq<Byte>, cin: nat, len: nat, ghost left: int, ghost all: nat) returns (cin': nat, len': nat, ghost left': int)
    requires Counting(s, cin, len, left, all) && cin < |s|
    ensures Counting(s, cin', len', left', all) && cin' > cin
  {
    DecodeStaysInside(s, cin);
    var d := DecodeAt(s, cin);
    cin' := cin + d.bytes;
    len', left' := len, left;
    if d.ok {
      len', left' := len + 1, left - 1;
    } else {
      SkippedValue(s, cin, cin', left);
    }
  }

  // Midway: what is done, and what the rest of the input will add, make up the copy.
  ghost predicate Copying(res: array<Byte>, s: seq<Byte>, cin: nat, cout: nat, left: int, done: seq<Byte>, copy: seq<Byte>)
    reads res
  {
    && cout <= cin <= |s| && res.Length == |s| + 1 && res[..cout] == done
    && done + EncodeAll(Values(s, cin, left)) == copy
  }

  /** The checked copy. The output never overtakes the input, so the buffer, a copy of the input, is large
      enough although the encoder is told of six bytes each time. */
  method Strndup(s: seq<Byte>, maxlen: int) returns (r: seq<Byte>)
    requires NoNul(s)
    ensures r == Ndup(s, maxlen)
  {
    var res := new Byte[|s| + 1](i requires 0 <= i => ByteAt(s, i));
    var cin: nat, cout: nat, len := 0, 0, 0;
    ghost var done: seq<Byte>, left, copy := [], maxlen, EncodeAll(Values(s, 0, maxlen));
    while cin < |s| && len < maxlen
      invariant Copying(res, s, cin, cout, left, done, copy) && left == maxlen - len
      decreases |s| - cin
    {
      var more;
      cin, more, cout, left, done := CopyOne(res, s, cin, cout, left, done, copy);
      len := len + more;
    }
    Whole(done, Values(s, cin, left));
    r := Finish(res, cout, done);
  }

  // One turn of the loop: reads a character, and writes it again if it decodes.
  method CopyOne(res: array<Byte>, s: seq<Byte>, cin: nat, cout: nat, ghost left: int, ghost done: seq<Byte>, ghost copy: seq<Byte>)
    returns (cin': nat, more: nat, cout': nat, ghost left': int, ghost done': seq<Byte>)
    requires Copying(res, s, cin, cout, left, done, copy) && cin < |s| && left > 0
    modifies res
    ensures cin' > cin && left' == left - more && Copying(res, s, cin', cout', left', done', copy)
  {
    DecodeStaysInside(s, cin);
    var d := DecodeAt(s, cin);
    cin' := cin + d.bytes;
    if d.ok {
      left', done' := left - 1, done + Encode(d.value);
      OneMoreValue(s, cin, cin', left, left', done, done');
      cout' := Append(res, cout, s, cin, cin', d, done, done');
      more := 1;
    } else {
      more, cout', done', left' := 0, cout, done, left;
      SkippedValue(s, cin, cin', left);
    }
  }

  // Encodes a decoded value behind what is already there.
  method Append(res: array<Byte>, cout: nat, ghost s: seq<Byte>, ghost cin: nat, ghost cin': nat, d: Decoded,
      ghost done: seq<Byte>, ghost done': seq<Byte>) returns (cout': nat)
    requires cout <= cin < |s| && res.Length == |s| + 1 && d == Decode(s, cin) && d.ok && res[..cout] == done
    requires cin' == cin + d.bytes && done' == done + Encode(d.value)
    modifies res
    ensures cout' <= cin' <= |s| && res[..cout'] == done'
  {
    DecodeStaysInside(s, cin);
    DecodeShrinks(s, cin);
    DecodeIsInt(s, cin);
    var n := EncodeInto(res, cout, 6, d.value);
    cout' := cout + n;
  }

  // Terminates the buffer and takes the C string out of it.
  method Finish(res: array<Byte>, cout: nat, ghost done: seq<Byte>) returns (r: seq<Byte>)
    requires cout < res.Length && res[..cout] == done
    modifies res
    ensures r == UpToNul(done)
  {
    res[cout] := 0;
    CutAtEnd(done, res[cout..]);
    assert res[..] == done + res[cout..];
    r := UpToNul(res[..]);
  }

  lemma Whole(done: seq<Byte>, vs: seq<int>)
    requires vs == []
    ensures done + EncodeAll(vs) == done
  {
  }

  lemma OneMoreValue(s: seq<Byte>, pos: nat, pos': nat, left: int, left': int, done: seq<Byte>, done': seq<Byte>)
    requires pos < |s| && left > 0 && Decode(s, pos).ok && pos' == pos + Decode(s, pos).bytes && left' == left - 1
    requires done' == done + Encode(Decode(s, pos).value)
    ensures done + EncodeAll(Values(s, pos, left)) == done' + EncodeAll(Values(s, pos', left'))
  {
    DecodeStaysInside(s, pos);
    var v, rest := Decode(s, pos).value, Values(s, pos', left');
    assert Values(s, pos, left) == [v] + rest;
    EncodeOneMore(v, rest, done);
  }

  lemma EncodeOneMore(v: int, rest: seq<int>, done: seq<Byte>)
    ensures done + EncodeAll([v] + rest) == done + Encode(v) + EncodeAll(rest)
  {
    assert ([v] + rest)[1..] == rest;
    assert done + (Encode(v) + EncodeAll(rest)) == done + Encode(v) + EncodeAll(rest);
  }

  lemma SkippedValue(s: seq<Byte>, pos: nat, pos': nat, left: int)
    requires pos < |s| && left > 0 && !Decode(s, pos).ok && pos' == pos + Decode(s, pos).bytes
    ensures Values(s, pos, left) == Values(s, pos', left)
  {
    DecodeStaysInside(s, pos);
  }

  lemma {:induction false} CutAtEnd(a: seq<Byte>, b: seq<Byte>)
    requires b != [] && b[0] == 0
    ensures UpToNul(a + b) == UpToNul(a)
  {
    if a != [] && a[0] != 0 {
      assert (a + b)[1..] == a[1..] + b;
      CutAtEnd(a[1..], b);
    }
  }

  lemma GatherIsInt(s: seq<Byte>, i: nat, k: nat, acc: int)
    requires k > 0
    ensures -LIMIT <= Gather(s, i, k, acc) < LIMIT
  {
    GatherLast(s, i, k, acc);
  }

  lemma {:induction false} AttemptIsInt(s: seq<Byte>, pos: nat, cp: nat, tried: nat)
    ensures -LIMIT <= Attempt(s, pos, cp, tried).value < LIMIT
    decreases 6 - tried
  {
    var m := FrameOf(ByteAt(s, cp));
    if m > tried {
      GatherIsInt(s, pos + 1, m, ByteAt(s, pos) % LeadRoom(m + 1));
      AttemptIsInt(s, pos, cp + Run(s, cp, m) + 1, m);
    }
  }

  lemma DecodeIsInt(s: seq<Byte>, pos: nat)
    ensures -LIMIT <= Decode(s, pos).value < LIMIT
  {
    AttemptIsInt(s, pos, pos, 0);
  }

  // ---------------------------------------------------------------- copying again changes nothing

  // The values that reach the copy: those before the first NUL, except what does not encode.
  function Kept(vs: seq<int>): (r: seq<int>)
    ensures |r| <= |vs| && forall i | 0 <= i < |r| :: 0 < r[i] < LIMIT
  {
    if vs == [] || vs[0] == 0 then []
    else if Encodable(vs[0]) then [vs[0]] + Kept(vs[1..]) else Kept(vs[1..])
  }

  lemma {:induction false} NoNulBefore(a: seq<Byte>, b: seq<Byte>)
    requires NoNul(a)
    ensures UpToNul(a + b) == a + UpToNul(b)
  {
    if a == [] {
      assert a + b == b;
    } else {
      assert (a + b)[1..] == a[1..] + b;
      NoNulBefore(a[1..], b);
    }
  }

  lemma EncodeNoNul(v: int)
    requires v != 0
    ensures NoNul(Encode(v))
  {
    if Encodable(v) && v >= 0x80 {
      var n := Length(v);
      LeadFits(v, n);
      forall i | 0 <= i < |Encode(v)| ensures Encode(v)[i] != 0 {
        if i > 0 {
          TailContinues(v, n - 1, i - 1);
          assert Encode(v)[i] == Tail(v, n - 1)[i - 1];
        }
      }
    }
  }

  lemma {:induction false} KeptIsCopied(vs: seq<int>)
    ensures UpToNul(EncodeAll(vs)) == EncodeAll(Kept(vs))
  {
    if vs != [] {
      KeptIsCopied(vs[1..]);
      if vs[0] != 0 {
        EncodeNoNul(vs[0]);
        NoNulBefore(Encode(vs[0]), EncodeAll(vs[1..]));
        if Encodable(vs[0]) {
          assert ([vs[0]] + Kept(vs[1..]))[1..] == Kept(vs[1..]);
        } else {
          assert [] + EncodeAll(vs[1..]) == EncodeAll(vs[1..]);
        }
      } else {
        assert Encode(0) == [0];
      }
    }
  }

  lemma SplitAt(s: seq<Byte>, pos: nat, e: seq<Byte>, rest: seq<Byte>)
    requires pos <= |s| && s[pos..] == e + rest
    ensures pos + |e| <= |s| && s[pos..pos + |e|] == e && s[pos + |e|..] == rest
  {
    assert s[pos..][..|e|] == e && s[pos..pos + |e|] == s[pos..][..|e|];
    assert s[pos + |e|..] == s[pos..][|e|..] == rest;
  }

  lemma DecodeFirst(s: seq<Byte>, pos: nat, vs: seq<int>) returns (n: nat)
    requires vs != [] && 0 < vs[0] < LIMIT && pos <= |s| && s[pos..] == EncodeAll(vs)
    ensures n >= 1 && pos + n <= |s| && Decode(s, pos) == Decoded(true, n, vs[0]) && s[pos + n..] == EncodeAll(vs[1..])
  {
    var e := Encode(vs[0]);
    SplitAt(s, pos, e, EncodeAll(vs[1..]));
    EncodeThenDecode(s, pos, vs[0]);
    n := |e|;
  }

  // Decoding a string of encoded values gives back the values.
  lemma {:induction false} DecodeAll(s: seq<Byte>, pos: nat, vs: seq<int>, left: int)
    requires (forall i | 0 <= i < |vs| :: 0 < vs[i] < LIMIT) && pos <= |s| && s[pos..] == EncodeAll(vs) && left >= |vs|
    ensures Values(s, pos, left) == vs
    decreases |vs|
  {
    if vs != [] {
      var n := DecodeFirst(s, pos, vs);
      var pos', left', rest := pos + n, left - 1, vs[1..];
      DecodeAll(s, pos', rest, left');
      FirstValue(s, pos, left, pos', left', vs);
    }
  }

  lemma FirstValue(s: seq<Byte>, pos: nat, left: int, pos': nat, left': int, vs: seq<int>)
    requires vs != [] && pos < pos' <= |s| && left > 0 && left' == left - 1 && Decode(s, pos) == Decoded(true, pos' - pos, vs[0])
    requires Values(s, pos', left') == vs[1..]
    ensures Values(s, pos, left) == vs
  {
    assert vs == [vs[0]] + vs[1..];
  }

  /** The checked copy holds no more characters than asked for, and copying it again changes nothing. */
  lemma NdupIsIdempotent(s: seq<Byte>, maxlen: int)
    ensures Ndup(Ndup(s, maxlen), maxlen) == Ndup(s, maxlen)
    ensures Count(Ndup(s, maxlen)) == |Kept(Values(s, 0, maxlen))| <= if maxlen > 0 then maxlen else 0
  {
    var ks := Kept(Values(s, 0, maxlen));
    KeptIsCopied(Values(s, 0, maxlen));
    var t := Ndup(s, maxlen);
    assert t[0..] == t;
    KeptAgain(ks);
    KeptIsCopied(ks);
    AtLeastOneByte(ks);
    DecodeAll(t, 0, ks, |t|);
    if maxlen > 0 {
      DecodeAll(t, 0, ks, maxlen);
    }
  }

  lemma {:induction false} KeptAgain(ks: seq<int>)
    requires forall i | 0 <= i < |ks| :: 0 < ks[i] < LIMIT
    ensures Kept(ks) == ks
  {
    if ks != [] {
      KeptAgain(ks[1..]);
      assert ks == [ks[0]] + ks[1..];
    }
  }

  lemma {:induction false} AtLeastOneByte(vs: seq<int>)
    requires forall i | 0 <= i < |vs| :: 0 < vs[i] < LIMIT
    ensures |EncodeAll(vs)| >= |vs|
  {
    if vs != [] {
      AtLeastOneByte(vs[1..]);
    }
  }
}
