// Bytes and little-endian integers, as le_write16 / le_write32 and their readers have them.
module Bytes {

  type Byte = x: int | 0 <= x < 256

  // Two's-complement truncation to 16 and 32 bits is implicit in taking bytes modulo 256.
  function Le16(x: int): (r: seq<Byte>)
    ensures |r| == 2
  {
    [x % 256, (x / 256) % 256]
  }

  function Le32(x: int): (r: seq<Byte>)
    ensures |r| == 4
  {
    Le16(x % 65536) + Le16((x / 65536) % 65536)
  }

  function U16(s: seq<Byte>): (r: int)
    requires |s| == 2
    ensures 0 <= r < 65536
  {
    var lo: int, hi: int := s[0], s[1];
    lo + 256 * hi
  }

  function U32(s: seq<Byte>): (r: int)
    requires |s| == 4
    ensures 0 <= r < 0x1_0000_0000
  {
    U16(s[..2]) + 65536 * U16(s[2..])
  }

  // A signed read of the same bytes.
  function S16(s: seq<Byte>): int
    requires |s| == 2
  {
    if U16(s) < 32768 then U16(s) else U16(s) - 65536
  }

  function S32(s: seq<Byte>): int
    requires |s| == 4
  {
    if U32(s) < 0x8000_0000 then U32(s) else U32(s) - 0x1_0000_0000
  }

  lemma Le16RoundTrip(x: int)
    ensures U16(Le16(x)) == x % 65536
  {
  }

  lemma Le32RoundTrip(x: int)
    ensures U32(Le32(x)) == x % 0x1_0000_0000
    ensures -0x8000_0000 <= x < 0x8000_0000 ==> S32(Le32(x)) == x
  {
    var lo, hi := x % 65536, (x / 65536) % 65536;
    assert Le32(x)[..2] == Le16(lo) && Le32(x)[2..] == Le16(hi);
    Le16RoundTrip(lo);
    Le16RoundTrip(hi);
    TwoHalves(x, lo, hi);
    assert U32(Le32(x)) == lo + 65536 * hi;
  }

  // The same for reading.
  lemma LowByteReadFirst(s: seq<Byte>)
    requires |s| == 4
    ensures U32(s) == s[0] as int + 256 * s[1] as int + 65536 * s[2] as int + 16777216 * s[3] as int
    ensures U16(s[..2]) == s[0] as int + 256 * s[1] as int
  {
    assert s[..2] == [s[0], s[1]] && s[2..] == [s[2], s[3]];
  }

  /** The lowest byte comes first; of a number that is too large or negative the low bits are kept. */
  lemma LowByteFirst(x: int)
    ensures var r := Le16(x); r[0] as int + 256 * r[1] as int == x % 65536
    ensures var r := Le32(x); r[0] as int + 256 * r[1] as int + 65536 * r[2] as int + 16777216 * r[3] as int == x % 0x1_0000_0000
  {
    Le16RoundTrip(x);
    Le32RoundTrip(x);
    LowByteReadFirst(Le32(x));
  }

  lemma Le16Is(x: int, a: Byte, b: Byte)
    requires x == a as int + 256 * b as int
    ensures Le16(x) == [a, b]
  {
  }

  // The bytes of a number written out.
  lemma Le32Is(x: int, a: Byte, b: Byte, c: Byte, d: Byte)
    requires var y := a as int + 256 * b as int + 65536 * (c as int + 256 * d as int); x == y || x == y - 0x1_0000_0000
    ensures Le32(x) == [a, b, c, d]
  {
    var lo, hi := a as int + 256 * b as int, c as int + 256 * d as int;
    Halves(x, lo, hi);
    Le16Is(lo, a, b);
    Le16Is(hi, c, d);
  }

  lemma Halves(x: int, lo: int, hi: int)
    requires 0 <= lo < 65536 && 0 <= hi < 65536 && (x == lo + 65536 * hi || x == lo + 65536 * hi - 0x1_0000_0000)
    ensures x % 65536 == lo && (x / 65536) % 65536 == hi
  {
  }

  lemma TwoHalves(x: int, lo: int, hi: int)
    requires lo == x % 65536 && hi == (x / 65536) % 65536
    ensures lo + 65536 * hi == x % 0x1_0000_0000
    ensures 0 <= x < 0x8000_0000 ==> lo + 65536 * hi == x
    ensures -0x8000_0000 <= x < 0 ==> lo + 65536 * hi == x + 0x1_0000_0000
  {
    var q := x / 65536;
    assert x == 65536 * q + lo && q == 65536 * (q / 65536) + hi;
  }

  // ---------------------------------------------------------------- bytes in place

  // r lies in f at position pos.
  predicate At(f: seq<Byte>, pos: int, r: seq<Byte>) {
    0 <= pos && pos + |r| <= |f| && f[pos..pos + |r|] == r
  }

  lemma AtSplit(f: seq<Byte>, pos: int, a: seq<Byte>, b: seq<Byte>)
    requires At(f, pos, a + b)
    ensures At(f, pos, a) && At(f, pos + |a|, b)
  {
    var r := f[pos..pos + |a + b|];
    assert f[pos..pos + |a|] == r[..|a|] == (a + b)[..|a|] == a;
    assert f[pos + |a|..pos + |a| + |b|] == r[|a|..] == (a + b)[|a|..] == b;
  }

  lemma AtFront(a: seq<Byte>, b: seq<Byte>, pos: int, r: seq<Byte>)
    requires At(a, pos, r)
    ensures At(a + b, pos, r)
  {
    assert (a + b)[pos..pos + |r|] == a[pos..pos + |r|];
  }

  lemma AtEnd(a: seq<Byte>, r: seq<Byte>)
    ensures At(a + r, |a|, r)
  {
  }

  // A piece inside a piece.
  lemma AtInside(f: seq<Byte>, pos: int, r: seq<Byte>, i: int, x: seq<Byte>)
    requires At(f, pos, r) && At(r, i, x)
    ensures At(f, pos + i, x)
  {
    forall k | 0 <= k < |x| ensures f[pos + i + k] == x[k] {
      assert f[pos..pos + |r|][i + k] == f[pos + i + k];
      assert r[i..i + |x|][k] == r[i + k];
    }
    assert f[pos + i..pos + i + |x|] == x;
  }
}
