// DeLorme waypoint notes: text too long for one message is cut into numbered ones and put together again.
module DelbinChunks {
  import opened Bytes
  import opened Wrappers

  // ---------------------------------------------------------------- notes

  // msg_waypoint_note_t: `note` is the announced text, without the NUL appended behind it.
  datatype NoteMsg = NoteMsg(index: nat, total: nat, name: seq<Byte>, note: seq<Byte>, nulAppended: bool)

  // The name with its NUL, cut to the size that one byte holds.
  function NameField(name: seq<Byte>): (r: seq<Byte>)
    ensures |r| < 256
  {
    (name + [0])[..(|name| + 1) % 256]
  }

  // The message's body; numbers are cut to 16 bits.
  function NoteBody(m: NoteMsg): seq<Byte>
    requires |m.name| < 256
  {
    Le16(m.index) + Le16(m.total) + [|m.name|] + m.name + Le16(|m.note|) + m.note + if m.nulAppended then [0] else []
  }

  /** The body of a message in numbers: two of 16 bits with the low byte first, the length of the name, the name, the
      length of the text, the text, and a NUL if the text has none of its own. */
  lemma NoteBodyIs(m: NoteMsg)
    requires |m.name| < 256 && m.index < 65536 && m.total < 65536 && |m.note| < 65536
    ensures var b, at := NoteBody(m), 5 + |m.name|;
      && |b| == at + 2 + |m.note| + (if m.nulAppended then 1 else 0)
      && b[0] as int + 256 * b[1] as int == m.index && b[2] as int + 256 * b[3] as int == m.total && b[4] as int == |m.name|
      && b[5..at] == m.name && b[at] as int + 256 * b[at + 1] as int == |m.note| && b[at + 2..at + 2 + |m.note|] == m.note
      && (m.nulAppended ==> b[|b| - 1] == 0)
  {
    var b, at := NoteBody(m), 5 + |m.name|;
    Le16RoundTrip(m.index);
    Le16RoundTrip(m.total);
    Le16RoundTrip(|m.note|);
    assert b[0] == Le16(m.index)[0] && b[1] == Le16(m.index)[1] && b[2] == Le16(m.total)[0] && b[3] == Le16(m.total)[1];
    assert b[at] == Le16(|m.note|)[0] && b[at + 1] == Le16(|m.note|)[1];
  }

  // The text a received body announces.
  function NoteIn(b: seq<Byte>): Option<seq<Byte>> {
    if 5 > |b| then None
    else
      var nameSize: int := b[4];
      var at := 5 + nameSize + 2;
      if at > |b| || at + U16(b[at - 2..at]) > |b| then None else Some(b[at..at + U16(b[at - 2..at])])
  }

  /** A message's text is found in its body behind the name, whatever the name. */
  lemma NoteIsFound(m: NoteMsg)
    requires |m.name| < 256 && |m.note| < 65536
    ensures NoteIn(NoteBody(m)) == Some(m.note)
  {
    var b, at := NoteBody(m), 5 + |m.name| + 2;
    var nul := if m.nulAppended then [0] else [];
    Le16RoundTrip(|m.note|);
    assert b[4] == |m.name|;
    assert b[at - 2..at] == Le16(|m.note|);
    assert b[at..at + |m.note|] == m.note;
  }

  function CeilDiv(a: nat, b: nat): nat
    requires b > 0
  {
    (a + (b - 1)) / b
  }

  // Message i of `total`, with at most `perMsg` bytes of text, NUL-terminated.
  predicate Numbered(m: NoteMsg, i: nat, total: nat, name: seq<Byte>, perMsg: nat) {
    && m.index == i + 1 && m.total == total && m.name == NameField(name) && 0 < |m.note| <= perMsg
    && (m.nulAppended <==> m.note[|m.note| - 1] != 0)
  }

  /** Cuts the notes into exactly ceil(size / perMsg) messages, numbered from 1, that concatenate
      to the text. */
  method WriteNotes(notes: seq<Byte>, name: seq<Byte>, perMsg: nat) returns (msgs: seq<NoteMsg>)
    requires notes != [] && perMsg > 0
    ensures |msgs| == CeilDiv(|notes|, perMsg)
    ensures forall i | 0 <= i < |msgs| :: Numbered(msgs[i], i, |msgs|, name, perMsg)
    ensures Joined(msgs) == notes
  {
    var msgCount := (|notes| + (perMsg - 1)) / perMsg;
    var at, size, i := 0, |notes|, 1;
    msgs := [];
    while true
      invariant 0 < size && at + size == |notes| && i == |msgs| + 1
      invariant at == Times(|msgs|, perMsg) && Cutting(notes, name, perMsg, msgCount, msgs, at)
      decreases size
    {
      var n := perMsg;
      if n > size {
        n := size;
      }
      var note := notes[at..at + n];
      var msg := NoteMsg(i, msgCount, NameField(name), note, note[n - 1] != 0);
      CutOne(notes, name, perMsg, msgCount, msgs, at, n, msg);
      msgs := msgs + [msg];
      i := i + 1;
      at := at + n;
      size := size - n;
      if size == 0 {
        CeilIs(|notes|, perMsg, |msgs| - 1, n);
        AllCut(notes, msgs);
        break;
      }
    }
  }

  // The messages so far hold the first `at` bytes.
  ghost predicate Cutting(notes: seq<Byte>, name: seq<Byte>, perMsg: nat, total: nat, msgs: seq<NoteMsg>, at: nat) {
    && at <= |notes| && Joined(msgs) == notes[..at]
    && forall j | 0 <= j < |msgs| :: Numbered(msgs[j], j, total, name, perMsg)
  }

  lemma CutOne(notes: seq<Byte>, name: seq<Byte>, perMsg: nat, total: nat, msgs: seq<NoteMsg>, at: nat, n: nat, msg: NoteMsg)
    requires Cutting(notes, name, perMsg, total, msgs, at) && 0 < n <= perMsg && at + n <= |notes|
    requires msg == NoteMsg(|msgs| + 1, total, NameField(name), notes[at..at + n], notes[at + n - 1] != 0)
    ensures Cutting(notes, name, perMsg, total, msgs + [msg], at + n)
  {
    JoinedSnoc(msgs, msg);
    CutText(notes, at, n);
  }

  lemma CutText(notes: seq<Byte>, at: nat, n: nat)
    requires at + n <= |notes|
    ensures notes[..at] + notes[at..at + n] == notes[..at + n]
  {
  }

  lemma AllCut(notes: seq<Byte>, msgs: seq<NoteMsg>)
    requires Joined(msgs) == notes[..|notes|]
    ensures Joined(msgs) == notes
  {
  }

  // a * b by repeated addition.
  function Times(a: nat, b: nat): nat {
    if a == 0 then 0 else Times(a - 1, b) + b
  }

  lemma {:induction false} TimesIsProduct(a: nat, b: nat)
    ensures Times(a, b) == a * b
  {
    if a > 0 { TimesIsProduct(a - 1, b); }
  }

  lemma MulMonotone(a: nat, c: nat, b: nat)
    requires a <= c
    ensures a * b <= c * b
  {
  }

  lemma DivUnique(x: nat, b: nat, q: nat, r: nat)
    requires b > 0 && x == q * b + r && r < b
    ensures x / b == q
  {
    var d := x / b;
    assert x == d * b + x % b;
    if d < q {
      MulMonotone(d + 1, q, b);
    } else if d > q {
      MulMonotone(q + 1, d, b);
    }
  }

  lemma CeilIs(size: nat, b: nat, q: nat, r: nat)
    requires 0 < r <= b && size == Times(q, b) + r
    ensures CeilDiv(size, b) == q + 1
  {
    TimesIsProduct(q, b);
    DivUnique(size + (b - 1), b, q + 1, r - 1);
  }

  function Joined(msgs: seq<NoteMsg>): seq<Byte> {
    if msgs == [] then [] else Joined(msgs[..|msgs| - 1]) + msgs[|msgs| - 1].note
  }

  lemma JoinedSnoc(msgs: seq<NoteMsg>, m: NoteMsg)
    ensures Joined(msgs + [m]) == Joined(msgs) + m.note
  {
    assert (msgs + [m])[..|msgs|] == msgs;
  }

  function DropNul(s: seq<Byte>): seq<Byte> {
    if s != [] && s[|s| - 1] == 0 then s[..|s| - 1] else s
  }

  // Every message adds its text, and a NUL that now ends the text is taken off again.
  function Reassembled(msgs: seq<NoteMsg>): seq<Byte> {
    if msgs == [] then []
    else
      var note := msgs[|msgs| - 1].note;
      var all := Reassembled(msgs[..|msgs| - 1]);
      if note == [] then all else DropNul(all + note)
  }

  /** Puts received notes together. */
  method ReadNotes(msgs: seq<NoteMsg>) returns (notes: seq<Byte>)
    ensures notes == Reassembled(msgs)
  {
    notes := [];
    var i := 0;
    while i < |msgs|
      invariant 0 <= i <= |msgs| && notes == Reassembled(msgs[..i])
    {
      assert msgs[..i + 1][..i] == msgs[..i];
      if msgs[i].note != [] {
        notes := notes + msgs[i].note;
        if notes[|notes| - 1] == 0 {
          notes := notes[..|notes| - 1];
        }
      }
      i := i + 1;
    }
    assert msgs[..i] == msgs;
  }

  predicate EndsInNul(m: NoteMsg) {
    m.note != [] && m.note[|m.note| - 1] == 0
  }

  function NulEnds(msgs: seq<NoteMsg>): (n: nat)
    ensures n == 0 <==> forall i | 0 <= i < |msgs| :: !EndsInNul(msgs[i])
  {
    if msgs == [] then 0
    else NulEnds(msgs[..|msgs| - 1]) + if EndsInNul(msgs[|msgs| - 1]) then 1 else 0
  }

  lemma {:induction false} ReassembledLength(msgs: seq<NoteMsg>)
    ensures |Reassembled(msgs)| == |Joined(msgs)| - NulEnds(msgs)
    ensures NulEnds(msgs) == 0 ==> Reassembled(msgs) == Joined(msgs)
    decreases |msgs|
  {
    if msgs != [] {
      ReassembledLength(msgs[..|msgs| - 1]);
      var note, all := msgs[|msgs| - 1].note, Reassembled(msgs[..|msgs| - 1]);
      if note != [] {
        assert (all + note)[|all + note| - 1] == note[|note| - 1];
      }
    }
  }

  /** Reassembly returns the text, less a final NUL, exactly when no message but the last ends in
      a NUL: text with a zero byte at a cut loses it. */
  lemma ReassemblyIsExact(msgs: seq<NoteMsg>)
    requires msgs != [] && msgs[|msgs| - 1].note != []
    ensures Reassembled(msgs) == DropNul(Joined(msgs)) <==> forall i | 0 <= i < |msgs| - 1 :: !EndsInNul(msgs[i])
  {
    var front, note := msgs[..|msgs| - 1], msgs[|msgs| - 1].note;
    ReassembledLength(front);
    ReassembledLength(msgs);
    NulEndsAre(msgs);
    DropLast(Joined(front), note, Joined(msgs), Reassembled(front), Reassembled(msgs));
  }

  /** The text 1, 0, 2 in the messages 1, 0 and 2 comes back as 1, 2. */
  lemma NulIsLost()
    ensures var msgs := [NoteMsg(1, 2, [0], [1, 0], false), NoteMsg(2, 2, [0], [2], true)];
      Reassembled(msgs) != DropNul(Joined(msgs))
  {
    var msgs := [NoteMsg(1, 2, [0], [1, 0], false), NoteMsg(2, 2, [0], [2], true)];
    assert EndsInNul(msgs[0]);
    ReassemblyIsExact(msgs);
  }

  lemma NulEndsAre(msgs: seq<NoteMsg>)
    requires msgs != []
    ensures NulEnds(msgs[..|msgs| - 1]) == 0 <==> forall i | 0 <= i < |msgs| - 1 :: !EndsInNul(msgs[i])
  {
    var front := msgs[..|msgs| - 1];
    assert forall i | 0 <= i < |front| :: front[i] == msgs[i];
  }

  lemma DropLast(text: seq<Byte>, note: seq<Byte>, joined: seq<Byte>, before: seq<Byte>, after: seq<Byte>)
    requires note != [] && joined == text + note && after == DropNul(before + note) && |before| <= |text|
    requires |before| == |text| ==> before == text
    ensures after == DropNul(joined) <==> |before| == |text|
  {
    LastByte(text, note);
    LastByte(before, note);
  }

  lemma LastByte(a: seq<Byte>, b: seq<Byte>)
    requires b != []
    ensures (a + b)[|a + b| - 1] == b[|b| - 1]
    ensures |DropNul(a + b)| == |a + b| - (if b[|b| - 1] == 0 then 1 else 0)
  {
  }

  /** So a C string, sent with its terminator in any number of messages, comes back whole. */
  lemma NotesRoundTrip(text: seq<Byte>, msgs: seq<NoteMsg>)
    requires forall i | 0 <= i < |text| :: text[i] != 0
    requires msgs != [] && (forall i | 0 <= i < |msgs| :: msgs[i].note != []) && Joined(msgs) == text + [0]
    ensures Reassembled(msgs) == text
  {
    forall i | 0 <= i < |msgs| - 1 ensures !EndsInNul(msgs[i]) {
      var at := ByteOfMessage(msgs, i);
      assert Joined(msgs)[at] == (text + [0])[at];
    }
    ReassemblyIsExact(msgs);
    assert (text + [0])[..|text|] == text;
  }

  // Where the last byte of message i stands in the whole text, and that it is not the last one.
  lemma {:induction false} ByteOfMessage(msgs: seq<NoteMsg>, i: nat) returns (at: nat)
    requires i < |msgs| && msgs[i].note != []
    ensures at < |Joined(msgs)| && Joined(msgs)[at] == msgs[i].note[|msgs[i].note| - 1]
    ensures i < |msgs| - 1 && msgs[|msgs| - 1].note != [] ==> at < |Joined(msgs)| - 1
    decreases |msgs|
  {
    var front := msgs[..|msgs| - 1];
    if i < |front| {
      at := ByteOfMessage(front, i);
    } else {
      at := |Joined(msgs)| - 1;
    }
  }
}
