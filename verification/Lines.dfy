// Reading text line by line, whatever ends the lines.
module Lines {
  import opened Bytes
  import opened Streams

  const CR := 13
  const LF := 10
  const EOT := 0x1A

  // Wide: a byte order mark was met, and the text goes on in 16-bit characters, which are not followed here.
  datatype Outcome = NoLine | Line(text: seq<Byte>) | Wide

  datatype Reading = Reading(outcome: Outcome, rest: View, checked: bool)

  predicate Marked(v: View) {
    v.pos + 1 < |v.data| && ((v.data[v.pos] == 0xFF && v.data[v.pos + 1] == 0xFE) || (v.data[v.pos] == 0xFE && v.data[v.pos + 1] == 0xFF))
  }

  function AtEnd(acc: seq<Byte>): Outcome {
    if acc == [] then NoLine else Line(acc)
  }

  // The line from here on, behind what is already read of it. A mark counts before anything else only.
  function LineFrom(v: View, acc: seq<Byte>, checked: bool): Reading
    decreases |v.data| - v.pos
  {
    if v.pos >= |v.data| then Reading(AtEnd(acc), v, checked)
    else
      var c, w := v.data[v.pos], Moved(v, 1);
      if c == EOT then Reading(AtEnd(acc), w, checked)
      else if c == CR then Reading(Line(acc), if w.pos < |w.data| && w.data[w.pos] == LF then Moved(w, 1) else w, checked)
      else if c == LF then Reading(Line(acc), w, checked)
      else if !checked && Marked(v) then Reading(Wide, Moved(v, 2), checked)
      else LineFrom(w, acc + [c], true)
  }

  // A byte put back is the one that was read.
  ghost predicate AsRead(src: Pushback)
    reads src, src.gz
    requires src.Valid()
  {
    src.Contents().data == src.gz.data
  }

  // The next byte; at the end there is none.
  method GetC(src: Pushback) returns (c: Byte?)
    requires src.Valid() && AsRead(src)
    modifies src, src.gz
    ensures src.Valid() && AsRead(src)
    ensures var v := old(src.Contents());
      if v.pos < |v.data| then c == Held(v.data[v.pos]) && src.Contents() == Moved(v, 1) && src.back.Nothing? else c == Nothing && src.Contents() == v
  {
    var buf := src.ReadOne();
    c := if |buf| == 0 then Nothing else Held(buf[0]);
  }

  method PutBack(src: Pushback, c: Byte?)
    requires src.Valid() && AsRead(src) && src.back.Nothing?
    requires c.Held? ==> 0 < src.Contents().pos <= |src.Contents().data| && c.c == src.Contents().data[src.Contents().pos - 1]
    modifies src
    ensures src.Valid() && AsRead(src)
    ensures src.Contents() == if c.Held? then View(old(src.Contents()).data, old(src.Contents()).pos - 1) else old(src.Contents())
  {
    if c.Held? {
      var ok := src.Ungetc(c.c);
    }
  }

  // Behind a carriage return, a line feed belongs to the same line end.
  method SkipLf(src: Pushback)
    requires src.Valid() && AsRead(src)
    modifies src, src.gz
    ensures src.Valid() && AsRead(src)
    ensures var w := old(src.Contents()); src.Contents() == if w.pos < |w.data| && w.data[w.pos] == LF then Moved(w, 1) else w
  {
    var c := GetC(src);
    if c.Held? && c.c != LF {
      PutBack(src, c);
    }
  }

  // Whether the byte just read begins a byte order mark; if not, the byte behind it is put back.
  method CheckMark(src: Pushback, c: Byte) returns (wide: bool)
    requires src.Valid() && AsRead(src) && 0 < src.Contents().pos <= |src.Contents().data| && c == src.Contents().data[src.Contents().pos - 1]
    modifies src, src.gz
    ensures src.Valid() && AsRead(src)
    ensures wide == Marked(View(old(src.Contents()).data, old(src.Contents()).pos - 1))
    ensures src.Contents() == if wide then Moved(old(src.Contents()), 1) else old(src.Contents())
  {
    wide := false;
    if c == 0xFE || c == 0xFF {
      var c1 := GetC(src);
      if c1.Held? {
        wide := (c == 0xFF && c1.c == 0xFE) || (c == 0xFE && c1.c == 0xFF);
        if !wide {
          PutBack(src, c1);
        }
      }
    }
  }

  /** gbfgetstr: reads up to a line feed, a carriage return with or without one, an end-of-text byte or the end. */
  method GetStr(src: Pushback, checked: bool) returns (r: Outcome, checked': bool)
    requires src.Valid() && AsRead(src)
    modifies src, src.gz
    ensures src.Valid() && AsRead(src) && Reading(r, src.Contents(), checked') == LineFrom(old(src.Contents()), [], checked)
  {
    ghost var all := LineFrom(src.Contents(), [], checked);
    var acc: seq<Byte> := [];
    checked' := checked;
    while true
      invariant src.Valid() && AsRead(src) && LineFrom(src.Contents(), acc, checked') == all
      decreases |src.Contents().data| - src.Contents().pos
    {
      var c := GetC(src);
      if c.Nothing? || c.c == EOT {
        return AtEnd(acc), checked';
      }
      if c.c == CR {
        SkipLf(src);
        return Line(acc), checked';
      }
      if c.c == LF {
        return Line(acc), checked';
      }
      if !checked' {
        var wide := CheckMark(src, c.c);
        if wide {
          return Wide, checked';
        }
      }
      checked' := true;
      acc := acc + [c.c];
    }
  }

  // ---------------------------------------------------------------- lines come back

  predicate Plain(line: seq<Byte>) {
    forall i | 0 <= i < |line| :: line[i] != CR && line[i] != LF && line[i] != EOT
  }

  // What can end a line: LF, CR LF, or a CR that no LF follows.
  predicate EndsLine(end: seq<Byte>, rest: seq<Byte>) {
    end == [LF] || end == [CR, LF] || (end == [CR] && (rest == [] || rest[0] != LF))
  }

  // What follows the last line: nothing, or an end-of-text byte.
  predicate EndsText(end: seq<Byte>) {
    end == [] || end[0] == EOT
  }

  /** The last line needs no end: text before the end of the file or of the text is a line, nothing is none. */
  lemma {:induction false} LastLineComesBack(v: View, acc: seq<Byte>, line: seq<Byte>, end: seq<Byte>, checked: bool)
    requires v.pos <= |v.data| && v.data[v.pos..] == line + end && Plain(line) && EndsText(end) && (checked || !Marked(v))
    ensures LineFrom(v, acc, checked)
      == Reading(if acc + line == [] then NoLine else Line(acc + line), Moved(v, |line| + if end == [] then 0 else 1), checked || line != [])
    decreases |line|
  {
    var s := line + end;
    if line == [] {
      assert s == end && acc + line == acc;
      assert end != [] ==> v.data[v.pos] == v.data[v.pos..][0];
    } else {
      var w, tail := Moved(v, 1), line[1..];
      assert v.data[v.pos] == v.data[v.pos..][0] == s[0] == line[0];
      assert v.data[w.pos..] == v.data[v.pos..][1..] == tail + end;
      LastLineComesBack(w, acc + [line[0]], tail, end, true);
      assert acc + [line[0]] + tail == acc + line;
    }
  }

  /** Text that begins with either byte order mark is 16-bit text, once it was not looked at before. */
  lemma MarkIsWide(v: View, acc: seq<Byte>, checked: bool)
    requires v.pos + 2 <= |v.data| && v.data[v.pos..v.pos + 2] in {[0xFF, 0xFE], [0xFE, 0xFF]}
    ensures LineFrom(v, acc, checked).outcome == Wide <== !checked
    ensures checked ==> LineFrom(v, acc, checked) == LineFrom(Moved(v, 1), acc + [v.data[v.pos]], true)
  {
    var m := v.data[v.pos..v.pos + 2];
    assert v.data[v.pos] == m[0] && v.data[v.pos + 1] == m[1];
  }

  /** A line is read back whole, and the next one begins right behind its end, whichever end it has. */
  lemma {:induction false} LineComesBack(v: View, acc: seq<Byte>, line: seq<Byte>, end: seq<Byte>, rest: seq<Byte>, checked: bool)
    requires v.pos <= |v.data| && v.data[v.pos..] == line + end + rest && Plain(line) && EndsLine(end, rest)
    requires checked || !Marked(v)
    ensures LineFrom(v, acc, checked) == Reading(Line(acc + line), Moved(v, |line| + |end|), checked || line != [])
    decreases |line|
  {
    var s := line + end + rest;
    assert |s| > 0 && v.data[v.pos] == v.data[v.pos..][0] == s[0];
    if line == [] {
      assert s == end + rest && acc + line == acc;
      if v.pos + 1 < |v.data| {
        assert v.data[v.pos + 1] == v.data[v.pos..][1] == s[1];
      }
    } else {
      var w, tail := Moved(v, 1), line[1..];
      assert v.data[w.pos..] == v.data[v.pos..][1..] == tail + end + rest;
      assert s[0] == line[0];
      LineComesBack(w, acc + [line[0]], tail, end, rest, true);
      assert acc + [line[0]] + tail == acc + line;
    }
  }
}
