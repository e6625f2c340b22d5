// Table-driven 8-bit character sets: lookup by binary search, and conversion of whole strings to
// UTF-8 and back.
module Charset {
  import opened Bytes
  import opened Utf8
  import opened Utf8Strings
  import opened Sequences
  import opened Wrappers

  datatype Link = Link(value: int, origin: Byte)

  // `ucs` gives the values of the characters from `offset` on, -1 where there is none; `link` and `extra`
  // lead from values back to characters. A fallback chain is finite here.
  datatype Cs = Cs(offset: nat, ucs: seq<int>, link: Option<seq<Link>>, extra: Option<seq<Link>>, fallback: Option<Cs>)

  const NOT_CONVERTABLE: Byte := '$' as int

  // ---------------------------------------------------------------- single characters

  datatype Converted = Converted(ok: bool, value: int)

  function CharToUcs4(c: Byte, cs: Cs): Converted {
    var i := c - cs.offset;
    if i < 0 then Converted(true, c)
    else if i >= |cs.ucs| || cs.ucs[i] == -1 then Converted(false, c)
    else Converted(true, cs.ucs[i])
  }

  predicate Sorted(links: seq<Link>) {
    forall i, j | 0 <= i < j < |links| :: links[i].value < links[j].value
  }

  // The first link with this value.
  function Find(links: seq<Link>, v: int): Option<Byte> {
    if links == [] then None else if links[0].value == v then Some(links[0].origin) else Find(links[1..], v)
  }

  lemma {:induction false} FindAt(links: seq<Link>, k: nat)
    requires Sorted(links) && k < |links|
    ensures Find(links, links[k].value) == Some(links[k].origin)
  {
    if k > 0 {
      FindAt(links[1..], k - 1);
    }
  }

  lemma {:induction false} FindNone(links: seq<Link>, v: int)
    requires forall k | 0 <= k < |links| :: links[k].value != v
    ensures Find(links, v) == None
  {
    if links != [] {
      FindNone(links[1..], v);
    }
  }

  /** The binary search finds what a linear search finds. */
  method SearchLinks(links: seq<Link>, v: int) returns (r: Option<Byte>)
    requires Sorted(links)
    ensures r == Find(links, v)
  {
    var i, j := 0, |links| - 1;
    while i <= j
      invariant 0 <= i <= j + 1 <= |links|
      invariant forall k | 0 <= k < i :: links[k].value < v
      invariant forall k | j < k < |links| :: links[k].value > v
      decreases j - i
    {
      var a := (i + j) / 2;
      var x := links[a].value;
      if x < v {
        i := a + 1;
      } else if x > v {
        j := a - 1;
      } else {
        FindAt(links, a);
        return Some(links[a].origin);
      }
    }
    FindNone(links, v);
    r := None;
  }

  function FindIn(links: Option<seq<Link>>, v: int): Option<Byte> {
    if links.Some? then Find(links.value, v) else None
  }

  function Ucs4ToChar(v: int, cs: Cs): Byte
    decreases cs
  {
    if FindIn(cs.link, v).Some? then FindIn(cs.link, v).value
    else if FindIn(cs.extra, v).Some? then FindIn(cs.extra, v).value
    else if v < cs.offset + |cs.ucs| then v % 256
    else if cs.fallback.Some? then Ucs4ToChar(v, cs.fallback.value)
    else NOT_CONVERTABLE
  }

  predicate TablesSorted(cs: Cs) {
    && (cs.link.Some? ==> Sorted(cs.link.value)) && (cs.extra.Some? ==> Sorted(cs.extra.value))
    && (cs.fallback.Some? ==> TablesSorted(cs.fallback.value))
  }

  // A table leads from this value to this character.
  ghost predicate Leads(links: Option<seq<Link>>, v: int, c: int) {
    links.Some? && exists k | 0 <= k < |links.value| :: links.value[k].value == v && links.value[k].origin == c
  }

  ghost predicate LeadsNowhere(links: Option<seq<Link>>, v: int) {
    forall c :: !Leads(links, v, c)
  }

  lemma FindMeaning(links: Option<seq<Link>>, v: int)
    requires links.Some? ==> Sorted(links.value)
    ensures FindIn(links, v).Some? ==> Leads(links, v, FindIn(links, v).value)
    ensures FindIn(links, v).None? ==> LeadsNowhere(links, v)
    ensures forall c | Leads(links, v, c) :: FindIn(links, v) == Some(c)
  {
    if links.Some? {
      forall k | 0 <= k < |links.value| && links.value[k].value == v ensures FindIn(links, v) == Some(links.value[k].origin) {
        FindAt(links.value, k);
      }
      FoundIsThere(links.value, v);
    }
  }

  lemma {:induction false} FoundIsThere(links: seq<Link>, v: int)
    ensures Find(links, v).Some? ==> exists k | 0 <= k < |links| :: links[k].value == v && links[k].origin == Find(links, v).value
  {
    if links != [] && links[0].value != v {
      FoundIsThere(links[1..], v);
      if k :| 0 <= k < |links[1..]| && links[1..][k].value == v && Some(links[1..][k].origin) == Find(links[1..], v) {
        assert links[k + 1].value == v;
      }
    }
  }

  // The character a value has in a set: by the first table, or else the second, or else its own low byte if it is
  // below the set's range, or else in the set to fall back on; and at last a dollar sign.
  ghost predicate HasChar(v: int, cs: Cs, c: Byte)
    decreases cs
  {
    || Leads(cs.link, v, c)
    || (LeadsNowhere(cs.link, v) && Leads(cs.extra, v, c))
    || (LeadsNowhere(cs.link, v) && LeadsNowhere(cs.extra, v)
        && if v < cs.offset + |cs.ucs| then (v - c) % 256 == 0 else if cs.fallback.Some? then HasChar(v, cs.fallback.value, c) else c == 0x24)
  }

  /** Every value has exactly one character in a set with sorted tables, the one looked up. */
  lemma {:induction false} LookUpMeaning(v: int, cs: Cs, c: Byte)
    requires TablesSorted(cs)
    ensures c == Ucs4ToChar(v, cs) <==> HasChar(v, cs, c)
    decreases cs
  {
    FindMeaning(cs.link, v);
    FindMeaning(cs.extra, v);
    if cs.fallback.Some? {
      LookUpMeaning(v, cs.fallback.value, c);
    }
  }

  method LookUp(v: int, cs: Cs) returns (c: Byte)
    requires TablesSorted(cs)
    ensures c == Ucs4ToChar(v, cs)
    decreases cs
  {
    if cs.link.Some? {
      var r := SearchLinks(cs.link.value, v);
      if r.Some? { return r.value; }
    }
    if cs.extra.Some? {
      var r := SearchLinks(cs.extra.value, v);
      if r.Some? { return r.value; }
    }
    if v < cs.offset + |cs.ucs| {
      c := v % 256;
    } else if cs.fallback.Some? {
      c := LookUp(v, cs.fallback.value);
    } else {
      c := NOT_CONVERTABLE;
    }
  }

  // ---------------------------------------------------------------- a consistent table

  predicate Linked(cs: Cs, v: int, c: int) {
    cs.link.Some? && exists k | 0 <= k < |cs.link.value| :: cs.link.value[k].value == v && cs.link.value[k].origin == c
  }

  predicate KeepsLow(links: Option<seq<Link>>, offset: nat) {
    links.Some? ==> forall k | 0 <= k < |links.value| :: links.value[k].value < offset ==> links.value[k].origin == links.value[k].value
  }

  // Every mapped character has a backward link, and no link disturbs the characters below the offset.
  predicate Consistent(cs: Cs) {
    && TablesSorted(cs) && cs.ucs != [] && KeepsLow(cs.link, cs.offset) && KeepsLow(cs.extra, cs.offset)
    && forall i | 0 <= i < |cs.ucs| :: cs.ucs[i] != -1 ==> 0 < cs.ucs[i] < LIMIT && Linked(cs, cs.ucs[i], cs.offset + i)
  }

  lemma {:induction false} FindKeepsLow(links: seq<Link>, v: int, offset: nat)
    requires v < offset && KeepsLow(Some(links), offset)
    ensures Find(links, v).None? || Find(links, v) == Some(v)
  {
    if links != [] && links[0].value != v {
      FindKeepsLow(links[1..], v, offset);
    }
  }

  /** A character that has a value is found again from it. */
  lemma CharRoundTrip(c: Byte, cs: Cs)
    requires Consistent(cs) && c != 0 && CharToUcs4(c, cs).ok
    ensures 0 < CharToUcs4(c, cs).value < LIMIT
    ensures Ucs4ToChar(CharToUcs4(c, cs).value, cs) == c
  {
    if c < cs.offset {
      if cs.link.Some? { FindKeepsLow(cs.link.value, c, cs.offset); }
      if cs.extra.Some? { FindKeepsLow(cs.extra.value, c, cs.offset); }
    } else {
      var i := c - cs.offset;
      assert Linked(cs, cs.ucs[i], cs.offset + i);
      var k :| 0 <= k < |cs.link.value| && cs.link.value[k].value == cs.ucs[i] && cs.link.value[k].origin == cs.offset + i;
      FindAt(cs.link.value, k);
    }
  }

  /** A character without a value is written as the value of '$'. */
  lemma DollarForOthers(c: Byte, cs: Cs)
    ensures ValueOf(c, cs) == if c < cs.offset then c else if c < cs.offset + |cs.ucs| && cs.ucs[c - cs.offset] != -1 then cs.ucs[c - cs.offset]
      else if 0x24 >= cs.offset && 0x24 < cs.offset + |cs.ucs| && cs.ucs[0x24 - cs.offset] != -1 then cs.ucs[0x24 - cs.offset] else 0x24
  {
  }

  // ---------------------------------------------------------------- strings

  // The value written for a character: that of '$' if it has none.
  function ValueOf(c: Byte, cs: Cs): int {
    if CharToUcs4(c, cs).ok then CharToUcs4(c, cs).value else CharToUcs4(NOT_CONVERTABLE, cs).value
  }

  function ValuesOf(s: seq<Byte>, cs: Cs): (r: seq<int>)
    ensures |r| == |s|
  {
    if s == [] then [] else [ValueOf(s[0], cs)] + ValuesOf(s[1..], cs)
  }

  function AnyToUtf8(s: seq<Byte>, cs: Cs): seq<Byte> {
    if cs.ucs == [] then s else EncodeAll(ValuesOf(s, cs))
  }

  // The characters decoded from a position on; what does not decode goes through as the byte it broke at.
  function CharsFrom(s: seq<Byte>, pos: nat, cs: Cs): (r: seq<Byte>)
    ensures pos <= |s| ==> |r| <= |s| - pos
    decreases |s| - pos
  {
    if pos >= |s| then []
    else
      DecodeStaysInside(s, pos);
      [Ucs4ToChar(Decode(s, pos).value, cs)] + CharsFrom(s, pos + Decode(s, pos).bytes, cs)
  }

  function Utf8ToAny(s: seq<Byte>, cs: Cs): seq<Byte> {
    if cs.ucs == [] then s else CharsFrom(s, 0, cs)
  }

  method CharValue(c: Byte, cs: Cs) returns (value: int)
    ensures value == ValueOf(c, cs)
  {
    var r := CharToUcs4(c, cs);
    if !r.ok {
      r := CharToUcs4(NOT_CONVERTABLE, cs);
    }
    value := r.value;
  }

  // What the encoder can be given: 32-bit values.
  predicate MapIsInt(cs: Cs) {
    forall i | 0 <= i < |cs.ucs| :: -LIMIT <= cs.ucs[i] < LIMIT
  }

  lemma ValueIsInt(c: Byte, cs: Cs)
    requires MapIsInt(cs)
    ensures -LIMIT <= ValueOf(c, cs) < LIMIT
  {
  }

  lemma EncodeAllFirst(s: seq<Byte>, cs: Cs)
    requires s != []
    ensures EncodeAll(ValuesOf(s, cs)) == Encode(ValueOf(s[0], cs)) + EncodeAll(ValuesOf(s[1..], cs))
  {
    var vs := ValuesOf(s, cs);
    assert vs[1..] == ValuesOf(s[1..], cs);
  }

  /** To UTF-8 in two passes: the first adds up the size of the buffer, the second fills it to the last byte. */
  method StrAnyToUtf8(src: seq<Byte>, cs: Cs) returns (result: array<Byte>)
    requires NoNul(src) && MapIsInt(cs) && cs.ucs != []
    ensures fresh(result) && result.Length == |AnyToUtf8(src, cs)| + 1
    ensures result[..] == AnyToUtf8(src, cs) + [0]
  {
    var len: nat, cin := 0, 0;
    while cin < |src|
      invariant 0 <= cin <= |src|
      invariant len + |EncodeAll(ValuesOf(src[cin..], cs))| == |AnyToUtf8(src, cs)|
    {
      EncodeAllFirst(src[cin..], cs);
      ValueIsInt(src[cin], cs);
      var value := CharValue(src[cin], cs);
      var n := EncodeInto(null, 0, 6, value);
      len := len + n;
      cin := cin + 1;
    }
    result := new Byte[len + 1];
    Fill(src, cs, result);
  }

  // The second pass.
  method Fill(src: seq<Byte>, cs: Cs, result: array<Byte>)
    requires MapIsInt(cs) && cs.ucs != [] && result.Length == |AnyToUtf8(src, cs)| + 1
    modifies result
    ensures result[..] == AnyToUtf8(src, cs) + [0]
  {
    var cin: nat, cout: nat := 0, 0;
    ghost var done: seq<Byte> := [];
    while cin < |src|
      invariant cin <= |src| && cout <= result.Length && result[..cout] == done
      invariant done + EncodeAll(ValuesOf(src[cin..], cs)) == AnyToUtf8(src, cs)
    {
      cout, done := FillOne(src, cin, cs, result, cout, done);
      cin := cin + 1;
    }
    Filled(done, ValuesOf(src[cin..], cs));
    result[cout] := 0;
  }

  lemma Filled(done: seq<Byte>, vs: seq<int>)
    requires vs == []
    ensures done + EncodeAll(vs) == done
  {
  }

  method FillOne(src: seq<Byte>, cin: nat, cs: Cs, result: array<Byte>, cout: nat, ghost done: seq<Byte>) returns (cout': nat, ghost done': seq<Byte>)
    requires MapIsInt(cs) && cin < |src| && cout <= result.Length && result[..cout] == done
    requires |done + EncodeAll(ValuesOf(src[cin..], cs))| + 1 == result.Length
    modifies result
    ensures cout' <= result.Length && result[..cout'] == done'
    ensures done' + EncodeAll(ValuesOf(src[cin + 1..], cs)) == done + EncodeAll(ValuesOf(src[cin..], cs))
  {
    EncodeAllFirst(src[cin..], cs);
    assert src[cin..][1..] == src[cin + 1..];
    ValueIsInt(src[cin], cs);
    var value := CharValue(src[cin], cs);
    var n := EncodeInto(result, cout, 6, value);
    cout', done' := cout + n, done + Encode(value);
    Associate(done, Encode(value), EncodeAll(ValuesOf(src[cin + 1..], cs)));
  }

  /** From UTF-8: one character for every sequence, so a buffer as long as the input is never outgrown. */
  method StrUtf8ToAny(src: seq<Byte>, cs: Cs) returns (r: seq<Byte>)
    requires NoNul(src) && TablesSorted(cs) && cs.ucs != []
    ensures r == UpToNul(Utf8ToAny(src, cs))
  {
    var res := new Byte[|src| + 1];
    var c: nat, dest: nat := 0, 0;
    ghost var done: seq<Byte> := [];
    while c < |src|
      invariant dest <= c <= |src| && res[..dest] == done
      invariant done + CharsFrom(src, c, cs) == Utf8ToAny(src, cs)
      decreases |src| - c
    {
      var ch, next := CharAt(src, c, cs, done);
      res[dest] := ch;
      done := done + [ch];
      dest := dest + 1;
      c := next;
    }
    NoneLeft(done, CharsFrom(src, c, cs));
    r := Finish(res, dest, done);
  }

  // One sequence becomes one character.
  method CharAt(src: seq<Byte>, c: nat, cs: Cs, ghost done: seq<Byte>) returns (ch: Byte, next: nat)
    requires c < |src| && TablesSorted(cs)
    ensures c < next <= |src| && done + CharsFrom(src, c, cs) == done + [ch] + CharsFrom(src, next, cs)
  {
    DecodeStaysInside(src, c);
    var d := DecodeAt(src, c);
    ch := LookUp(d.value, cs);
    next := c + d.bytes;
    Associate(done, [ch], CharsFrom(src, next, cs));
  }

  lemma NoneLeft(a: seq<Byte>, b: seq<Byte>)
    requires b == []
    ensures a + b == a
  {
  }

  // ---------------------------------------------------------------- there and back

  predicate Convertible(s: seq<Byte>, cs: Cs) {
    forall i | 0 <= i < |s| :: s[i] != 0 && CharToUcs4(s[i], cs).ok
  }

  lemma {:induction false} CharsComeBack(s: seq<Byte>, u: seq<Byte>, pos: nat, cs: Cs)
    requires Consistent(cs) && Convertible(s, cs) && pos <= |u| && u[pos..] == EncodeAll(ValuesOf(s, cs))
    ensures CharsFrom(u, pos, cs) == s
    decreases |s|
  {
    if s != [] {
      var pos' := FirstComesBack(s, u, pos, cs);
      CharsComeBack(s[1..], u, pos', cs);
      OneChar(s, u, pos, pos', cs);
    }
  }

  lemma FirstComesBack(s: seq<Byte>, u: seq<Byte>, pos: nat, cs: Cs) returns (pos': nat)
    requires Consistent(cs) && Convertible(s, cs) && s != [] && pos <= |u| && u[pos..] == EncodeAll(ValuesOf(s, cs))
    ensures pos < pos' <= |u| && u[pos'..] == EncodeAll(ValuesOf(s[1..], cs))
    ensures Decode(u, pos).bytes == pos' - pos && Ucs4ToChar(Decode(u, pos).value, cs) == s[0]
  {
    var vs := ValuesOf(s, cs);
    CharRoundTrip(s[0], cs);
    var n := DecodeFirst(u, pos, vs);
    assert vs[1..] == ValuesOf(s[1..], cs);
    pos' := pos + n;
  }

  lemma OneChar(s: seq<Byte>, u: seq<Byte>, pos: nat, pos': nat, cs: Cs)
    requires s != [] && pos < pos' <= |u| && Decode(u, pos).bytes == pos' - pos && Ucs4ToChar(Decode(u, pos).value, cs) == s[0]
    requires CharsFrom(u, pos', cs) == s[1..]
    ensures CharsFrom(u, pos, cs) == s
  {
    assert s == [s[0]] + s[1..];
  }

  lemma {:induction false} NoNulInside(s: seq<Byte>, cs: Cs)
    requires Consistent(cs) && Convertible(s, cs)
    ensures NoNul(EncodeAll(ValuesOf(s, cs)))
  {
    if s != [] {
      EncodeAllFirst(s, cs);
      CharRoundTrip(s[0], cs);
      EncodeNoNul(ValueOf(s[0], cs));
      NoNulInside(s[1..], cs);
    }
  }

  /** A string of convertible characters survives the way to UTF-8 and back, for any consistent table; on the
      way it holds no NUL, so that it is a C string. */
  lemma StringRoundTrip(s: seq<Byte>, cs: Cs)
    requires Consistent(cs) && Convertible(s, cs)
    ensures NoNul(AnyToUtf8(s, cs))
    ensures Utf8ToAny(AnyToUtf8(s, cs), cs) == s
  {
    var u := AnyToUtf8(s, cs);
    assert u[0..] == u;
    NoNulInside(s, cs);
    CharsComeBack(s, u, 0, cs);
  }
}
