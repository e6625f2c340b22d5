// Two stream implementations, both a byte sequence with a position: a growing buffer in memory, and
// a one-byte pushback over a source that only reads on.
module Streams {
  import opened Bytes

  datatype View = View(data: seq<Byte>, pos: nat)

  datatype Whence = SeekSet | SeekCur | SeekEnd

  function Min(a: int, b: int): int {
    if a < b then a else b
  }

  // The bytes from the position on, at most n of them.
  function Ahead(v: View, n: nat): seq<Byte> {
    if v.pos >= |v.data| then [] else v.data[v.pos..Min(v.pos + n, |v.data|)]
  }

  function Moved(v: View, n: nat): View {
    v.(pos := v.pos + n)
  }

  // The same over a source, whose own bytes are seen once anything is read.
  function Passed(v: View, data: seq<Byte>, n: nat): View {
    if n == 0 then v else View(data, v.pos + n)
  }

  // ---------------------------------------------------------------- memory

  // Written bytes replace what is there and extend the data where they reach beyond.
  function Overwritten(v: View, bytes: seq<Byte>): View
    requires v.pos <= |v.data|
  {
    var end := v.pos + |bytes|;
    View(v.data[..v.pos] + bytes + (if end < |v.data| then v.data[end..] else []), end)
  }

  // The end is not looked at: seeking from the end goes from the position.
  function SeekTarget(v: View, offset: int, whence: Whence): int {
    if whence == SeekSet then offset else v.pos + offset
  }

  // Going to a position inside the data succeeds with 0, anything else fails with -1.
  function GoneTo(v: View, to: int): (int, View) {
    if 0 <= to <= |v.data| then (0, v.(pos := to)) else (-1, v)
  }

  class MemStream {
    var mem: array<Byte>
    var mempos: nat
    var memlen: nat
    var memsz: nat

    ghost predicate Valid()
      reads this, mem
    {
      mempos <= memlen <= memsz == mem.Length && memsz % 4096 == 0
    }

    ghost function Contents(): View
      reads this, mem
      requires Valid()
    {
      View(mem[..memlen], mempos)
    }

    constructor ()
      ensures Valid() && fresh(mem) && Contents() == View([], 0)
    {
      mem := new Byte[0];
      mempos, memlen, memsz := 0, 0, 0;
    }

    /** Seeks, unless the target is outside the data. */
    method Seek(offset: int, whence: Whence) returns (result: int)
      requires Valid()
      modifies this`mempos
      ensures Valid() && (result, Contents()) == GoneTo(old(Contents()), SeekTarget(old(Contents()), offset, whence))
    {
      var pos := mempos + offset;
      if whence == SeekSet {
        pos := offset;
      }
      if pos < 0 || pos > memlen {
        return -1;
      }
      mempos := pos;
      result := 0;
    }

    /** Reads whole items only: what is left of an incomplete one stays unread. */
    method Read(size: nat, members: nat) returns (result: nat, buf: seq<Byte>)
      requires Valid() && size > 0
      modifies this`mempos
      ensures Valid() && result == WholeItems(old(Contents()), size, members)
      ensures buf == Ahead(old(Contents()), result * size) && |buf| == result * size
      ensures Contents() == Moved(old(Contents()), result * size)
    {
      var count;
      result, count := CountItems(memlen - mempos, size, members);
      buf := mem[mempos..mempos + count];
      mempos := mempos + count;
    }

    method CountItems(left: nat, size: nat, members: nat) returns (result: nat, count: nat)
      requires size > 0
      ensures result == Items(left, size, members) && count == result * size <= left
    {
      result := left / size;
      if result > members {
        result := members;
      }
      ItemsFit(left, size, members);
      count := result * size;
    }

    /** Writing grows the buffer in steps of 4096 bytes. */
    method Write(bytes: seq<Byte>)
      requires Valid()
      modifies this, mem
      ensures Valid() && (mem == old(mem) || fresh(mem))
      ensures Contents() == Overwritten(old(Contents()), bytes)
    {
      var count := |bytes|;
      if mempos + count > memsz {
        Grow((mempos + count + 4095) / 4096 * 4096);
      }
      CopyIn(bytes);
      mempos := mempos + count;
      if mempos > memlen {
        memlen := mempos;
      }
    }

    method Grow(size: nat)
      requires Valid() && size > memsz && size % 4096 == 0
      modifies this`mem, this`memsz
      ensures Valid() && fresh(mem) && memsz == size && Contents() == old(Contents())
    {
      var bigger, m := new Byte[size], mem;
      var i := 0;
      while i < m.Length
        invariant 0 <= i <= m.Length && bigger[..i] == m[..i]
      {
        bigger[i] := m[i];
        i := i + 1;
      }
      assert bigger[..memlen] == bigger[..i][..memlen] == m[..memlen];
      mem, memsz := bigger, size;
    }

    method CopyIn(bytes: seq<Byte>)
      requires Valid() && mempos + |bytes| <= memsz
      modifies mem
      ensures Valid()
      ensures forall k | 0 <= k < mem.Length :: mem[k] == if mempos <= k < mempos + |bytes| then bytes[k - mempos] else old(mem[k])
    {
      var i := 0;
      while i < |bytes|
        invariant 0 <= i <= |bytes|
        invariant forall k | 0 <= k < mem.Length :: mem[k] == if mempos <= k < mempos + i then bytes[k - mempos] else old(mem[k])
      {
        mem[mempos + i] := bytes[i];
        i := i + 1;
      }
    }

    /** Writing nothing of size nothing cuts the data off at the position. */
    method Truncate()
      requires Valid()
      modifies this`memlen
      ensures Valid() && Contents() == View(old(Contents()).data[..old(Contents()).pos], old(Contents()).pos)
    {
      memlen := mempos;
    }

    method Tell() returns (pos: nat)
      requires Valid()
      ensures pos == Contents().pos
    {
      pos := mempos;
    }

    method Eof() returns (eof: bool)
      requires Valid()
      ensures eof <==> Contents().pos == |Contents().data|
    {
      eof := mempos == memlen;
    }

    /** Steps back and stores the byte there. */
    method Ungetc(c: Byte) returns (ok: bool)
      requires Valid()
      modifies this`mempos, mem
      ensures Valid() && ok == (old(Contents()).pos > 0)
      ensures Contents() == if ok then View(old(Contents()).data[old(Contents()).pos - 1 := c], old(Contents()).pos - 1) else old(Contents())
    {
      if mempos == 0 {
        return false;
      }
      mempos := mempos - 1;
      mem[mempos] := c;
      ok := true;
    }
  }

  // How many whole items are ahead, at most `members`.
  function WholeItems(v: View, size: nat, members: nat): nat
    requires size > 0
  {
    if v.pos >= |v.data| then 0 else Items(|v.data| - v.pos, size, members)
  }

  function Items(n: nat, size: nat, members: nat): nat
    requires size > 0
  {
    Min(n / size, members)
  }

  /** They fit, and unless all are there another one would not. */
  lemma ItemsFit(n: nat, size: nat, members: nat)
    requires size > 0
    ensures Items(n, size, members) * size <= n
    ensures Items(n, size, members) < members ==> n < (Items(n, size, members) + 1) * size
  {
    var q := n / size;
    assert q * size <= n < (q + 1) * size;
    if members < q {
      assert members * size <= q * size;
    }
  }

  /** Bytes written are read back from where they were written, and nothing before or behind them changed. */
  lemma WriteThenRead(v: View, bytes: seq<Byte>)
    requires v.pos <= |v.data|
    ensures var w := Overwritten(v, bytes);
      && Ahead(w.(pos := v.pos), |bytes|) == bytes
      && w.data[..v.pos] == v.data[..v.pos] && w.pos == v.pos + |bytes|
      && |w.data| == (if w.pos < |v.data| then |v.data| else w.pos)
      && (w.pos < |v.data| ==> w.data[w.pos..] == v.data[w.pos..])
  {
  }

  /** Two writes are one, two reads are one. */
  lemma TwoWrites(v: View, a: seq<Byte>, b: seq<Byte>)
    requires v.pos <= |v.data|
    ensures Overwritten(Overwritten(v, a), b) == Overwritten(v, a + b)
  {
    var x, y := Overwritten(Overwritten(v, a), b).data, Overwritten(v, a + b).data;
    assert |x| == |y|;
    forall i | 0 <= i < |x| ensures x[i] == y[i] {
    }
  }

  lemma TwoReads(v: View, m: nat, n: nat)
    ensures Ahead(v, m) + Ahead(Moved(v, |Ahead(v, m)|), n) == if |Ahead(v, m)| == m then Ahead(v, m + n) else Ahead(v, m)
  {
  }

  /** Pushing back the byte just read undoes the read. */
  lemma ReadThenUnget(v: View)
    requires v.pos < |v.data|
    ensures var c, w := Ahead(v, 1)[0], Moved(v, 1); View(w.data[w.pos - 1 := c], w.pos - 1) == v
  {
  }

  /** A position counted from the start is the same wherever the stream stands; one counted from there is that far
      from it, so that going on and back by the same number ends where it began. */
  lemma SeekMeaning(v: View, offset: int)
    requires v.pos <= |v.data|
    ensures 0 <= offset <= |v.data| ==> GoneTo(v, SeekTarget(v, offset, SeekSet)) == (0, View(v.data, offset))
    ensures 0 <= v.pos + offset <= |v.data| ==>
      var (r, w) := GoneTo(v, SeekTarget(v, offset, SeekCur)); r == 0 && w.pos - v.pos == offset && GoneTo(w, SeekTarget(w, -offset, SeekCur)) == (0, v)
    ensures offset < 0 || offset > |v.data| ==> GoneTo(v, SeekTarget(v, offset, SeekSet)) == (-1, v)
  {
  }

  /** Seeking from the end of a memory stream has the result it should have exactly if the stream stands at its
      end or both the position meant and the position taken are outside the data, so that it fails. */
  lemma SeekEndIsRelative(v: View, offset: int)
    requires v.pos <= |v.data|
    ensures GoneTo(v, SeekTarget(v, offset, SeekEnd)) == GoneTo(v, |v.data| + offset) <==>
      v.pos == |v.data| || !(0 <= v.pos + offset <= |v.data| || 0 <= |v.data| + offset <= |v.data|)
  {
  }

  /** At position 3 of 10 bytes, going to the end stays there. */
  lemma SeekEndStays()
    ensures var v := View([0, 0, 0, 0, 0, 0, 0, 0, 0, 0], 3);
      GoneTo(v, SeekTarget(v, 0, SeekEnd)) == (0, v) != GoneTo(v, |v.data|)
  {
    SeekEndIsRelative(View([0, 0, 0, 0, 0, 0, 0, 0, 0, 0], 3), 0);
  }

  // ---------------------------------------------------------------- pushback

  // A source that is read on and on; `atEnd` is set once a read has come short.
  class Source {
    const data: seq<Byte>
    var pos: nat
    var atEnd: bool

    constructor (bytes: seq<Byte>)
      ensures data == bytes && pos == 0 && !atEnd
    {
      data, pos, atEnd := bytes, 0, false;
    }

    method Read(n: nat) returns (buf: seq<Byte>)
      modifies this
      ensures buf == Ahead(View(data, old(pos)), n) && pos == old(pos) + |buf|
      ensures atEnd == (old(atEnd) || |buf| < n)
    {
      buf := if pos >= |data| then [] else data[pos..Min(pos + n, |data|)];
      pos := pos + |buf|;
      atEnd := atEnd || |buf| < n;
    }

    method SeekTo(to: nat)
      modifies this
      ensures pos == to && !atEnd
    {
      pos, atEnd := to, false;
    }
  }

  // Reading an item that the data cuts short is fatal.
  datatype ReadResult = Fatal | Count(n: nat)

  class Pushback {
    const gz: Source
    var back: Byte?

    constructor (bytes: seq<Byte>)
      ensures Valid() && fresh(gz) && Contents() == View(bytes, 0)
    {
      gz := new Source(bytes);
      back := Nothing;
    }

    ghost predicate Valid()
      reads this, gz
    {
      (gz.atEnd ==> gz.pos >= |gz.data|) && (back.Held? ==> 0 < gz.pos <= |gz.data|)
    }

    // A byte put back stands in the place of the one before the source's position until it is read or dropped.
    ghost function Contents(): View
      reads this, gz
      requires Valid()
    {
      if back.Held? then View(gz.data[gz.pos - 1 := back.c], gz.pos - 1) else View(gz.data, gz.pos)
    }

    method Read(size: nat, members: nat) returns (result: ReadResult, buf: seq<Byte>)
      requires Valid() && size > 0 && members > 0
      modifies this, gz
      ensures Valid() && buf == Ahead(old(Contents()), size * members) && Contents() == Passed(old(Contents()), gz.data, |buf|)
      ensures result == if members == 1 && size > 1 && 0 < |buf| < size then Fatal else Count(|buf| / size)
    {
      var count := size * members;
      Positive(size, members);
      buf := Fetch(count);
      result := Rate(size, members, |buf|);
    }

    method Rate(size: nat, members: nat, n: nat) returns (result: ReadResult)
      requires size > 0
      ensures result == if members == 1 && size > 1 && 0 < n < size then Fatal else Count(n / size)
    {
      if members == 1 && size > 1 && n > 0 && n < size {
        return Fatal;
      }
      result := Count(n / size);
    }

    // Reading single bytes.
    method ReadBytes(n: nat) returns (buf: seq<Byte>)
      requires Valid() && n > 0
      modifies this, gz
      ensures Valid() && buf == Ahead(old(Contents()), n) && Contents() == Passed(old(Contents()), gz.data, |buf|)
    {
      var items;
      items, buf := Read(1, n);
      assert 1 * n == n;
    }

    method ReadOne() returns (buf: seq<Byte>)
      requires Valid()
      modifies this, gz
      ensures Valid() && buf == Ahead(old(Contents()), 1) && Contents() == Passed(old(Contents()), gz.data, |buf|)
      ensures back.Nothing?
    {
      buf := Fetch(1);
    }

    // The byte put back, if there is one, then more from the source.
    method Fetch(count: nat) returns (buf: seq<Byte>)
      requires Valid() && count > 0
      modifies this, gz
      ensures Valid() && back.Nothing? && buf == Ahead(old(Contents()), count) && Contents() == Passed(old(Contents()), gz.data, |buf|)
    {
      var left := count;
      buf := [];
      if back.Held? {
        FirstAhead(gz.data, back.c, gz.pos, count);
        buf := [back.c];
        left := left - 1;
        back := Nothing;
      }
      var more := gz.Read(left);
      buf := buf + more;
    }

    method Seek(offset: int, whence: Whence) returns (ok: bool)
      requires Valid() && whence != SeekEnd
      modifies this, gz
      ensures var v, to := old(Contents()), SeekTarget(old(Contents()), offset, whence);
        ok == (to >= 0) && (ok ==> Valid() && Contents() == View(gz.data, to))
    {
      var off := offset;
      if whence == SeekCur && back.Held? {
        off := off - 1;
      }
      var to := if whence == SeekSet then off else gz.pos + off;
      back := Nothing;
      ok := to >= 0;
      if ok {
        gz.SeekTo(to);
      }
    }

    method Tell() returns (pos: nat)
      requires Valid()
      ensures pos == Contents().pos
    {
      pos := gz.pos;
      if back.Held? {
        pos := pos - 1;
      }
    }

    /** Whether the end is reached can need a byte to be read ahead; it is put back. */
    method Eof() returns (eof: bool)
      requires Valid()
      modifies this, gz
      ensures Valid() && Contents() == old(Contents())
      ensures eof <==> Contents().pos >= |Contents().data|
    {
      if back.Held? {
        return false;
      }
      eof := gz.atEnd;
      if !eof {
        var test := gz.Read(1);
        if |test| == 1 {
          back := Held(test[0]);
        } else {
          eof := true;
        }
      }
    }

    /** Puts a byte back in the place of the last one read; only one fits. */
    method Ungetc(c: Byte) returns (ok: bool)
      requires Valid() && 0 < Contents().pos <= |Contents().data|
      modifies this
      ensures Valid() && ok == !old(back).Held?
      ensures var v := old(Contents()); Contents() == if ok then View(v.data[v.pos - 1 := c], v.pos - 1) else v
    {
      ok := back.Nothing?;
      if ok {
        back := Held(c);
      }
    }
  }

  datatype Byte? = Nothing | Held(c: Byte)

  lemma FirstAhead(data: seq<Byte>, c: Byte, pos: nat, count: nat)
    requires 0 < pos <= |data| && count > 0
    ensures Ahead(View(data[pos - 1 := c], pos - 1), count) == [c] + Ahead(View(data, pos), count - 1)
  {
  }

  lemma Positive(a: nat, b: nat)
    requires a > 0 && b > 0
    ensures a * b > 0
  {
  }

  // ---------------------------------------------------------------- copying

  /** Copies in blocks of 1024 bytes until the count is reached or the source ends. */
  method CopyFrom(file: MemStream, src: Pushback, count: nat) returns (copied: nat)
    requires file.Valid() && src.Valid()
    modifies file, file.mem, src, src.gz
    ensures file.Valid() && src.Valid()
    ensures copied == |Ahead(old(src.Contents()), count)| && src.Contents() == Passed(old(src.Contents()), src.gz.data, copied)
    ensures file.Contents() == Overwritten(old(file.Contents()), Ahead(old(src.Contents()), count))
  {
    ghost var from, to, data, v, w := src.Contents(), file.Contents(), src.gz.data, View([], 0), View([], 0);
    NothingCopied(from, to, data);
    copied, v, w := CopyLoop(file, src, count, from, to, data);
    AllCopied(from, to, data, v, w, copied, count);
  }

  method CopyLoop(file: MemStream, src: Pushback, count: nat, ghost from: View, ghost to: View, ghost data: seq<Byte>)
    returns (copied: nat, ghost v: View, ghost w: View)
    requires file.Valid() && src.Valid() && data == src.gz.data && src.Contents() == from && file.Contents() == to
    requires Copied(from, to, data, from, to, 0)
    modifies file, file.mem, src, src.gz
    ensures file.Valid() && src.Valid() && src.Contents() == v && file.Contents() == w
    ensures Copied(from, to, data, v, w, copied) && Ended(from, copied, count)
  {
    var left, more := count, true;
    copied, v, w := 0, from, to;
    while left > 0 && more
      invariant file.Valid() && src.Valid() && (file.mem == old(file.mem) || fresh(file.mem))
      invariant src.Contents() == v && file.Contents() == w && Copied(from, to, data, v, w, copied)
      invariant copied + left == count && (!more ==> from.pos + copied >= |from.data|)
      decreases left, more
    {
      more, left, copied, v, w := CopyStep(file, src, left, from, to, data, copied, v, w);
    }
  }

  method CopyStep(file: MemStream, src: Pushback, left: nat, ghost from: View, ghost to: View, ghost data: seq<Byte>, copied: nat, ghost v: View, ghost w: View)
    returns (more: bool, left': nat, copied': nat, ghost v': View, ghost w': View)
    requires file.Valid() && src.Valid() && left > 0 && data == src.gz.data && src.Contents() == v && file.Contents() == w
    requires Copied(from, to, data, v, w, copied)
    modifies file, file.mem, src, src.gz
    ensures file.Valid() && src.Valid() && (file.mem == old(file.mem) || fresh(file.mem))
    ensures src.Contents() == v' && file.Contents() == w' && Copied(from, to, data, v', w', copied')
    ensures copied' + left' == copied + left && (more ==> left' < left) && (!more ==> from.pos + copied' >= |from.data|)
  {
    ghost var wanted, buf;
    var n;
    n, wanted, buf, v', w' := CopyBlock(file, src, left, v, w);
    more, left', copied' := n != 0, left - n, copied + n;
    CopiedMore(from, to, data, v, w, copied, wanted, buf, v', w', copied');
  }

  // The count is reached, or the source is at its end.
  predicate Ended(v: View, copied: nat, count: nat) {
    copied <= count && (copied == count || v.pos + copied >= |v.data|)
  }

  lemma AllCopied(from: View, to: View, data: seq<Byte>, src: View, file: View, copied: nat, count: nat)
    requires Copied(from, to, data, src, file, copied) && Ended(from, copied, count)
    ensures copied == |Ahead(from, count)| && src == Passed(from, data, copied) && file == Overwritten(to, Ahead(from, count))
  {
    SourceEnded(from, copied, count);
  }

  // So many bytes have gone from one view, which may begin with a byte put back, to the other.
  ghost predicate Copied(from: View, to: View, data: seq<Byte>, src: View, file: View, n: nat) {
    Taken(from, data, src, n) && Put(from, to, file, n)
  }

  ghost predicate Taken(from: View, data: seq<Byte>, src: View, n: nat) {
    Agrees(from, data) && |Ahead(from, n)| == n && src == Passed(from, data, n)
  }

  ghost predicate Put(from: View, to: View, file: View, n: nat) {
    to.pos <= |to.data| && file == Overwritten(to, Ahead(from, n))
  }

  // Behind its position the view shows the source's data.
  ghost predicate Agrees(v: View, data: seq<Byte>) {
    |v.data| == |data| && forall i | v.pos < i < |data| :: v.data[i] == data[i]
  }

  lemma NothingCopied(from: View, to: View, data: seq<Byte>)
    requires to.pos <= |to.data| && Agrees(from, data)
    ensures Copied(from, to, data, from, to, 0)
  {
    assert to.data == to.data[..to.pos] + to.data[to.pos..];
  }

  method CopyBlock(file: MemStream, src: Pushback, left: nat, ghost v: View, ghost w: View)
    returns (n: nat, ghost wanted: nat, ghost buf: seq<Byte>, ghost v': View, ghost w': View)
    requires file.Valid() && src.Valid() && left > 0 && src.Contents() == v && file.Contents() == w
    modifies file, file.mem, src, src.gz
    ensures file.Valid() && src.Valid() && (file.mem == old(file.mem) || fresh(file.mem))
    ensures 0 < wanted <= left && buf == Ahead(v, wanted) && n == |buf| && n <= left
    ensures src.Contents() == v' == Passed(v, src.gz.data, n) && file.Contents() == w' == Overwritten(w, buf)
  {
    var bytes := if left < 1024 then left else 1024;
    var read := src.ReadBytes(bytes);
    file.Write(read);
    n, wanted, buf := |read|, bytes, read;
    v', w' := src.Contents(), file.Contents();
  }

  lemma CopiedMore(from: View, to: View, data: seq<Byte>, src: View, file: View, copied: nat, wanted: nat, buf: seq<Byte>,
                   src': View, file': View, more: nat)
    requires Copied(from, to, data, src, file, copied) && wanted > 0 && buf == Ahead(src, wanted) && file.pos <= |file.data|
    requires src' == Passed(src, data, |buf|) && file' == Overwritten(file, buf) && more == copied + |buf|
    ensures Copied(from, to, data, src', file', more)
    ensures buf == [] ==> from.pos + copied >= |from.data|
  {
    AheadMore(from, data, copied, wanted, buf, more);
    TwoWrites(to, Ahead(from, copied), buf);
  }

  lemma AheadMore(from: View, data: seq<Byte>, copied: nat, wanted: nat, buf: seq<Byte>, more: nat)
    requires Agrees(from, data) && |Ahead(from, copied)| == copied && wanted > 0 && more == copied + |buf|
    requires buf == Ahead(Passed(from, data, copied), wanted)
    ensures Ahead(from, copied) + buf == Ahead(from, more) && |Ahead(from, more)| == more
    ensures buf == [] ==> from.pos + copied >= |from.data|
  {
    SameAhead(from, data, copied, wanted);
    assert buf == Ahead(Moved(from, copied), |buf|);
    TwoReads(from, copied, |buf|);
  }

  lemma SameAhead(v: View, data: seq<Byte>, copied: nat, n: nat)
    requires Agrees(v, data)
    ensures Ahead(Passed(v, data, copied), n) == Ahead(Moved(v, copied), n)
  {
    var p := v.pos + copied;
    if copied > 0 && p < |data| {
      var end := Min(p + n, |data|);
      assert v.data[p..end] == data[p..end];
    }
  }

  lemma SourceEnded(v: View, copied: nat, count: nat)
    requires |Ahead(v, copied)| == copied && Ended(v, copied, count)
    ensures Ahead(v, count) == Ahead(v, copied)
  {
  }
}
