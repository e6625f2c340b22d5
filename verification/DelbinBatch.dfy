// The DeLorme transfer layer: the stop-and-wait sender and the batch collector. The device is the
// environment: the messages message_read_1 will return, each with what the clock says then.
module DelbinBatch {
  import opened Bytes
  import opened Sequences

  const ACK := 0xaa00
  const NACK := 0xaa01
  const TRANSFER_COMPLETE := 0xaa04
  const ERROR := 0xa003
  const NAVIGATION := 0xa010
  const SATELLITE_INFO := 0xa020

  // `late`: the time limit has passed since the exchange was (re)started.
  datatype Event = Event(id: int, body: seq<Byte>, late: bool)

  // ---------------------------------------------------------------- collecting a batch

  predicate IsInterval(e: Event) {
    e.id == NAVIGATION || e.id == ACK || e.id == NACK || e.id == SATELLITE_INFO
  }

  predicate EndsBatch(e: Event) {
    e.id == TRANSFER_COMPLETE || (e.id == NAVIGATION && e.late)
  }

  // How many events come before the one that ends the batch.
  function BatchLength(ev: seq<Event>): (n: nat)
    ensures n <= |ev|
    ensures forall i | 0 <= i < n :: !EndsBatch(ev[i])
    ensures n < |ev| ==> EndsBatch(ev[n])
  {
    if ev == [] || EndsBatch(ev[0]) then 0 else 1 + BatchLength(ev[1..])
  }

  // The data messages among the events.
  function Data(ev: seq<Event>): seq<Event> {
    if ev == [] then []
    else (if IsInterval(ev[0]) then [] else [ev[0]]) + Data(ev[1..])
  }

  lemma {:induction false} DataConcat(a: seq<Event>, b: seq<Event>)
    ensures Data(a + b) == Data(a) + Data(b)
  {
    if a == [] {
      assert a + b == b;
    } else {
      assert (a + b)[1..] == a[1..] + b;
      DataConcat(a[1..], b);
    }
  }

  lemma DataSnoc(a: seq<Event>, e: Event)
    ensures Data(a + [e]) == if IsInterval(e) then Data(a) else Data(a) + [e]
  {
    DataConcat(a, [e]);
    assert [e][1..] == [];
  }

  // These places, in ascending order, are those of the messages that are neither navigation nor satellite data nor
  // answers, and these are the messages.
  ghost predicate DataAt(ev: seq<Event>, ix: seq<nat>, data: seq<Event>) {
    && |data| == |ix| && (forall j, k | 0 <= j < k < |ix| :: ix[j] < ix[k])
    && (forall k | 0 <= k < |ix| :: ix[k] < |ev| && data[k] == ev[ix[k]] && Kept(ev[ix[k]]))
    && (forall i: nat | i < |ev| && Kept(ev[i]) :: i in ix)
  }

  predicate Kept(e: Event) {
    e.id !in {0xa010, 0xa020, 0xaa00, 0xaa01}
  }

  /** What a batch keeps. */
  lemma {:induction false} DataMeaning(ev: seq<Event>) returns (ix: seq<nat>)
    ensures DataAt(ev, ix, Data(ev))
  {
    if ev == [] {
      ix := [];
    } else {
      var n := |ev| - 1;
      var front, e := ev[..n], ev[n];
      ix := DataMeaning(front);
      assert ev == front + [e];
      DataSnoc(front, e);
      DataAtMore(front, ix, Data(front), e);
      ix := if Kept(e) then ix + [n] else ix;
    }
  }

  lemma DataAtMore(ev: seq<Event>, ix: seq<nat>, data: seq<Event>, e: Event)
    requires DataAt(ev, ix, data)
    ensures if Kept(e) then DataAt(ev + [e], ix + [|ev|], data + [e]) else DataAt(ev + [e], ix, data)
  {
    var q := ev + [e];
    forall i: nat | i < |q| && Kept(q[i]) ensures i in ix + [|ev|] && (i < |ev| ==> i in ix) {
      if i < |ev| {
        assert q[i] == ev[i] && i in ix;
      }
    }
  }

  // Shows how far a run over the events has come.
  lemma BatchLengthFrom(ev: seq<Event>, n: nat)
    requires n < |ev| && (forall i | 0 <= i < n :: !EndsBatch(ev[i])) && EndsBatch(ev[n])
    ensures BatchLength(ev) == n
  {
    var m := BatchLength(ev);
    var e := ev[if m < |ev| then m else n];
    assert EndsBatch(e);
  }

  // NoInput: the events ran out; DeviceError: the program ends.
  datatype Verdict = Complete | TimedOut | Corrupted | DeviceError | NoInput

  // ---------------------------------------------------------------- waiting for one message

  // message_read_1 reports a corrupted message of the wanted kind as 0.
  predicate EndsRead(e: Event, wanted: int) {
    e.id == 0 || e.id == ERROR || e.id == wanted || e.late
  }

  // How many events come before the one that ends the wait.
  function ReadLength(ev: seq<Event>, wanted: int): (n: nat)
    ensures n <= |ev|
    ensures forall i | 0 <= i < n :: !EndsRead(ev[i], wanted)
    ensures n < |ev| ==> EndsRead(ev[n], wanted)
  {
    if ev == [] || EndsRead(ev[0], wanted) then 0 else 1 + ReadLength(ev[1..], wanted)
  }

  lemma ReadLengthFrom(ev: seq<Event>, wanted: int, n: nat)
    requires n <= |ev| && (forall i | 0 <= i < n :: !EndsRead(ev[i], wanted)) && (n < |ev| ==> EndsRead(ev[n], wanted))
    ensures ReadLength(ev, wanted) == n
  {
  }

  function Ruling(e: Event, wanted: int): Verdict {
    if e.id == 0 then Corrupted else if e.id == ERROR then DeviceError else if e.id == wanted then Complete else TimedOut
  }

  // Waiting ends at the first event that can end it; the data messages up to there are acknowledged, and that
  // one too unless it is an error.
  ghost predicate Waited(ev: seq<Event>, wanted: int, v: Verdict, rest: seq<Event>, before: seq<int>, acked: seq<int>) {
    var n := ReadLength(ev, wanted);
    if n == |ev| then v == NoInput && rest == [] && acked == before + Ids(Data(ev))
    else
      && v == Ruling(ev[n], wanted) && rest == ev[n + 1..]
      && acked == before + Ids(Data(if v == Corrupted || v == DeviceError then ev[..n] else ev[..n + 1]))
  }

  // xmalloc of a larger array, memcpy of the elements in use.
  method Grow<T>(a: array<T>, n: nat, max: nat, filler: T) returns (b: array<T>)
    requires n <= a.Length && n <= max
    ensures fresh(b) && b.Length == max && b[..n] == a[..n]
  {
    b := new T[max](_ => filler);
    forall j | 0 <= j < n {
      b[j] := a[j];
    }
  }

  method Store<T>(a: array<T>, n: nat, x: T) returns (n': nat)
    requires n < a.Length
    modifies a
    ensures n' == n + 1 && a[..n'] == old(a[..n]) + [x]
  {
    a[n] := x;
    n' := n + 1;
  }

  class Device {
    var incoming: seq<Event>
    var acked: seq<int>

    constructor (incoming: seq<Event>)
      ensures this.incoming == incoming && acked == []
    {
      this.incoming, acked := incoming, [];
    }

    method Acknowledge(e: Event)
      modifies this`acked
      ensures acked == old(acked) + (if IsInterval(e) then [] else [e.id])
    {
      if !IsInterval(e) {
        acked := acked + [e.id];
      }
    }

    /** Waits for one message, acknowledging the others. */
    method MessageRead(wanted: int) returns (v: Verdict)
      modifies this
      ensures Waited(old(incoming), wanted, v, incoming, old(acked), acked)
    {
      ghost var ev, n, before := incoming, 0, acked;
      assert ev[..0] == [] && Ids([]) == [];
      while incoming != []
        invariant Waiting(ev, wanted, n, incoming, before, acked)
        decreases |incoming|
      {
        var e := incoming[0];
        incoming := incoming[1..];
        if EndsRead(e, wanted) {
          ReadLengthFrom(ev, wanted, n);
        }
        if e.id == 0 {
          return Corrupted;
        }
        if e.id == ERROR {
          return DeviceError;
        }
        ghost var said := acked;
        Acknowledge(e);
        AckOne(ev, n, before, said, e, acked);
        if e.id == wanted || e.late {
          return Ruling(e, wanted);
        }
        n := n + 1;
      }
      ReadLengthFrom(ev, wanted, n);
      assert ev[..n] == ev;
      v := NoInput;
    }

    /** Collects messages until "transfer complete". On success the batch is exactly the data
        messages before it, in the order received, each acknowledged, and so is the last one. */
    method GetBatch() returns (v: Verdict, batch: seq<Event>)
      modifies this
      ensures var ev := old(incoming);
        var n := BatchLength(ev);
        if n == |ev| then v == NoInput
        else if ev[n].id == TRANSFER_COMPLETE then
          && v == Complete && batch == Data(ev[..n]) && incoming == ev[n + 1..]
          && acked == old(acked) + Ids(Data(ev[..n])) + [TRANSFER_COMPLETE]
        else v == TimedOut && batch == []
    {
      ghost var ev, n, before := incoming, 0, acked;
      var arrayMax := 100;
      var a := new Event[arrayMax](_ => Event(0, [], false));
      var i := 0;
      while true
        invariant fresh(a) && i <= a.Length == arrayMax && 0 < arrayMax
        invariant Collecting(ev, n, incoming, a[..i], before, acked)
        decreases |ev| - n
      {
        if incoming == [] {
          NothingEnds(ev);
          return NoInput, [];
        }
        if i == arrayMax {
          arrayMax := arrayMax + arrayMax;
          a := Grow(a, i, arrayMax, Event(0, [], false));
        }
        var e := incoming[0];
        incoming := incoming[1..];
        if EndsBatch(e) {
          BatchLengthFrom(ev, n);
        }
        if e.id == NAVIGATION && e.late {
          return TimedOut, [];
        }
        ghost var said := acked;
        Acknowledge(e);
        if e.id == TRANSFER_COMPLETE {
          return Complete, a[..i];
        }
        CollectOne(ev, n, a[..i], before, said, e, acked);
        if !IsInterval(e) {
          i := Store(a, i, e);
        }
        n := n + 1;
      }
    }
  }

  // Halfway: n events were neither wanted nor late.
  ghost predicate Waiting(ev: seq<Event>, wanted: int, n: nat, incoming: seq<Event>, before: seq<int>, acked: seq<int>) {
    && n <= |ev| && incoming == ev[n..] && (forall j | 0 <= j < n :: !EndsRead(ev[j], wanted))
    && acked == before + Ids(Data(ev[..n]))
  }

  // One more event is acknowledged if it is a data message.
  lemma AckOne(ev: seq<Event>, n: nat, before: seq<int>, acked: seq<int>, e: Event, acked': seq<int>)
    requires n < |ev| && e == ev[n] && acked == before + Ids(Data(ev[..n]))
    requires acked' == acked + if IsInterval(e) then [] else [e.id]
    ensures acked' == before + Ids(Data(ev[..n + 1]))
  {
    DataSnoc(ev[..n], e);
    assert ev[..n + 1] == ev[..n] + [e];
    if !IsInterval(e) {
      IdsSnoc(Data(ev[..n]), e);
    }
  }

  // The first n events are dealt with: the data among them kept and acknowledged.
  ghost predicate Collecting(ev: seq<Event>, n: nat, incoming: seq<Event>, batch: seq<Event>, before: seq<int>, acked: seq<int>) {
    && n <= |ev| && incoming == ev[n..] && (forall j | 0 <= j < n :: !EndsBatch(ev[j]))
    && batch == Data(ev[..n]) && acked == before + Ids(batch)
  }

  lemma CollectOne(ev: seq<Event>, n: nat, batch: seq<Event>, before: seq<int>, acked: seq<int>, e: Event, acked': seq<int>)
    requires n < |ev| && e == ev[n] && !EndsBatch(e) && Collecting(ev, n, ev[n..], batch, before, acked)
    requires acked' == acked + if IsInterval(e) then [] else [e.id]
    ensures Collecting(ev, n + 1, ev[n + 1..], if IsInterval(e) then batch else batch + [e], before, acked')
  {
    DataSnoc(ev[..n], e);
    assert ev[..n + 1] == ev[..n] + [e];
    if !IsInterval(e) {
      IdsSnoc(batch, e);
    }
  }

  function Ids(ev: seq<Event>): seq<int> {
    seq(|ev|, i requires 0 <= i < |ev| => ev[i].id)
  }

  lemma IdsSnoc(ev: seq<Event>, e: Event)
    ensures Ids(ev + [e]) == Ids(ev) + [e.id]
  {
  }

  lemma NothingEnds(ev: seq<Event>)
    requires forall i | 0 <= i < |ev| :: !EndsBatch(ev[i])
    ensures BatchLength(ev) == |ev|
  {
  }

  // ---------------------------------------------------------------- sending a batch

  datatype Action = Wrote(i: nat) | Heard(id: int)

  // One exchange: the message, then anything but an ACK, with at most one repetition of the
  // message in between, then the ACK.
  ghost predicate Exchange(r: seq<Action>, i: nat) {
    && |r| >= 2 && r[0] == Wrote(i) && r[|r| - 1] == Heard(ACK)
    && InProgress(r[..|r| - 1], i)
  }

  ghost predicate InProgress(r: seq<Action>, i: nat) {
    && r != [] && r[0] == Wrote(i)
    && (forall p | 0 <= p < |r| :: r[p].Wrote? ==> r[p].i == i)
    && (forall p | 0 <= p < |r| :: r[p] != Heard(ACK))
    && Writes(r, i) <= 2
  }

  function Writes(log: seq<Action>, i: nat): nat {
    if log == [] then 0
    else Writes(log[..|log| - 1], i) + if log[|log| - 1] == Wrote(i) then 1 else 0
  }

  // The log of complete exchanges, one message after the other.
  ghost function Flat(rounds: seq<seq<Action>>): seq<Action> {
    if rounds == [] then [] else Flat(rounds[..|rounds| - 1]) + rounds[|rounds| - 1]
  }

  ghost predicate Exchanges(rounds: seq<seq<Action>>) {
    forall i | 0 <= i < |rounds| :: Exchange(rounds[i], i)
  }

  lemma {:induction false} WritesConcat(a: seq<Action>, b: seq<Action>, i: nat)
    ensures Writes(a + b, i) == Writes(a, i) + Writes(b, i)
    decreases |b|
  {
    if b == [] {
      assert a + b == a;
    } else {
      assert (a + b)[..|a + b| - 1] == a + b[..|b| - 1];
      WritesConcat(a, b[..|b| - 1], i);
    }
  }

  lemma {:induction false} WritesNone(log: seq<Action>, i: nat)
    requires forall p | 0 <= p < |log| :: log[p] != Wrote(i)
    ensures Writes(log, i) == 0
  {
    if log != [] {
      WritesNone(log[..|log| - 1], i);
    }
  }

  ghost predicate InOrder(log: seq<Action>) {
    forall p, q | 0 <= p < q < |log| :: log[p].Wrote? && log[q].Wrote? ==> log[p].i <= log[q].i
  }

  ghost predicate OnlyBelow(log: seq<Action>, n: nat) {
    forall p | 0 <= p < |log| :: log[p].Wrote? ==> log[p].i < n
  }

  // Before position q, an ACK comes after every copy of every message before the one written there.
  ghost predicate Separated(log: seq<Action>, q: nat)
    requires q < |log| && log[q].Wrote?
  {
    exists p | 0 <= p < q ::
      log[p] == Heard(ACK) && forall r | 0 <= r < |log| && log[r].Wrote? && log[r].i < log[q].i :: r < p
  }

  ghost predicate AckBetween(log: seq<Action>) {
    forall q | 0 <= q < |log| && log[q].Wrote? && log[q].i > 0 :: Separated(log, q)
  }

  // Complete exchanges, and possibly one more under way.
  ghost predicate Run(log: seq<Action>, rounds: seq<seq<Action>>, tail: seq<Action>) {
    log == Flat(rounds) + tail && Exchanges(rounds) && (tail == [] || InProgress(tail, |rounds|))
  }

  lemma ExchangeMeaning(r: seq<Action>, i: nat)
    requires Exchange(r, i)
    ensures 1 <= Writes(r, i) <= 2
    ensures forall p | 0 <= p < |r| :: r[p].Wrote? ==> r[p].i == i
  {
    var front := r[..|r| - 1];
    assert forall p | 0 <= p < |r| - 1 :: r[p] == front[p];
    FirstWrite(front, i);
  }

  lemma FirstWrite(r: seq<Action>, i: nat)
    requires r != [] && r[0] == Wrote(i)
    ensures Writes(r, i) >= 1
  {
    WritesConcat(r[..1], r[1..], i);
    assert r == r[..1] + r[1..] && r[..1][..0] == [];
  }

  // Appending actions about message n only, after an ACK that closes everything before.
  lemma Extend(a: seq<Action>, b: seq<Action>, n: nat)
    requires InOrder(a) && OnlyBelow(a, n) && AckBetween(a)
    requires forall p | 0 <= p < |b| :: b[p].Wrote? ==> b[p].i == n
    requires n == 0 || (a != [] && a[|a| - 1] == Heard(ACK))
    ensures var log := a + b; InOrder(log) && OnlyBelow(log, n + 1) && AckBetween(log)
  {
    var log := a + b;
    forall q | 0 <= q < |log| && log[q].Wrote? && log[q].i > 0
      ensures Separated(log, q)
    {
      if q < |a| {
        assert a[q] == log[q] && Separated(a, q);
        var p :| 0 <= p < q && a[p] == Heard(ACK) && forall r | 0 <= r < |a| && a[r].Wrote? && a[r].i < a[q].i :: r < p;
        assert log[p] == Heard(ACK);
      } else {
        var p := |a| - 1;
        assert log[p] == Heard(ACK);
      }
    }
  }

  /** In a run of complete exchanges the messages go out in queue order, each once or twice, and
      none before an ACK that came after every copy of the message before it. */
  lemma {:induction false} ExchangesMeaning(rounds: seq<seq<Action>>)
    requires Exchanges(rounds)
    ensures var log := Flat(rounds);
      && InOrder(log) && OnlyBelow(log, |rounds|) && AckBetween(log)
      && (forall i | 0 <= i < |rounds| :: 1 <= Writes(log, i) <= 2)
      && (rounds != [] ==> log != [] && log[|log| - 1] == Heard(ACK))
  {
    if rounds != [] {
      var n := |rounds| - 1;
      ExchangesMeaning(rounds[..n]);
      ExchangeMeaning(rounds[n], n);
      Extend(Flat(rounds[..n]), rounds[n], n);
      CountWrites(Flat(rounds[..n]), rounds[n], n);
    }
  }

  lemma CountWrites(a: seq<Action>, b: seq<Action>, n: nat)
    requires OnlyBelow(a, n) && forall p | 0 <= p < |b| :: b[p].Wrote? ==> b[p].i == n
    ensures forall i | 0 <= i < n :: Writes(a + b, i) == Writes(a, i)
    ensures Writes(a + b, n) == Writes(b, n)
  {
    forall i | 0 <= i <= n
      ensures Writes(a + b, i) == if i < n then Writes(a, i) else Writes(b, n)
    {
      WritesConcat(a, b, i);
      if i < n { WritesNone(b, i); } else { WritesNone(a, i); }
    }
  }

  /** The same holds at every moment of every run, also of one that is cut short. */
  lemma RunIsSafe(log: seq<Action>, rounds: seq<seq<Action>>, tail: seq<Action>)
    requires Run(log, rounds, tail)
    ensures InOrder(log) && OnlyBelow(log, |rounds| + 1) && AckBetween(log)
    ensures forall j | 0 <= j < |rounds| :: 1 <= Writes(log, j) <= 2
    ensures Writes(log, |rounds|) <= 2
  {
    ExchangesMeaning(rounds);
    Extend(Flat(rounds), tail, |rounds|);
    CountWrites(Flat(rounds), tail, |rounds|);
  }

  lemma CloseExchange(log: seq<Action>, rounds: seq<seq<Action>>, tail: seq<Action>)
    requires Run(log, rounds, tail) && tail != []
    ensures Run(log + [Heard(ACK)], rounds + [tail + [Heard(ACK)]], [])
  {
    var r := tail + [Heard(ACK)];
    assert r[..|r| - 1] == tail;
    assert (rounds + [r])[..|rounds|] == rounds;
    assert log + [Heard(ACK)] == Flat(rounds) + r;
  }

  lemma OpenExchange(log: seq<Action>, rounds: seq<seq<Action>>, n: nat)
    requires Run(log, rounds, []) && n == |rounds|
    ensures Run(log + [Wrote(n)], rounds, [Wrote(n)]) && Writes([Wrote(n)], n) == 1
  {
    var r := [Wrote(n)];
    assert r[..|r| - 1] == [];
    assert log == Flat(rounds) && InProgress(r, n);
  }

  lemma GoOn(log: seq<Action>, rounds: seq<seq<Action>>, tail: seq<Action>, x: Action)
    requires Run(log, rounds, tail) && tail != []
    requires (x.Heard? && x != Heard(ACK)) || (x == Wrote(|rounds|) && Writes(tail, |rounds|) == 1)
    ensures Run(log + [x], rounds, tail + [x])
    ensures Writes(tail + [x], |rounds|) == Writes(tail, |rounds|) + (if x.Wrote? then 1 else 0)
  {
    var r := tail + [x];
    assert r[..|r| - 1] == tail;
    assert log + [x] == Flat(rounds) + r;
  }

  // The ids of the messages read so far.
  function HeardIds(log: seq<Action>): seq<int> {
    if log == [] then []
    else
      var last := log[|log| - 1];
      HeardIds(log[..|log| - 1]) + if last.Heard? then [last.id] else []
  }

  lemma HeardOne(log: seq<Action>, x: Action, e: Event, rest: seq<Event>)
    ensures x.Wrote? ==> HeardIds(log + [x]) == HeardIds(log)
    ensures x == Heard(e.id) ==> HeardIds(log + [x]) + Ids(rest) == HeardIds(log) + Ids([e] + rest)
  {
    assert (log + [x])[..|log|] == log;
    assert Ids([e] + rest) == [e.id] + Ids(rest);
  }

  // ---------------------------------------------------------------- what the events decide

  predicate LateNav(e: Event) {
    e.id == NAVIGATION && e.late
  }

  // What was written and heard, the events left, and how it ended.
  datatype Sending = Sending(log: seq<Action>, rest: seq<Event>, v: Verdict)

  function Behind(log: seq<Action>, s: Sending): Sending {
    s.(log := log + s.log)
  }

  // The rest of an exchange, `copies` of message i being written.
  function Exchanging(ev: seq<Event>, i: nat, copies: nat): (s: Sending)
    ensures |s.rest| <= |ev| && (s.v == Complete || s.v == TimedOut || s.v == NoInput)
  {
    if ev == [] then Sending([], [], NoInput)
    else if ev[0].id == ACK then Sending([Heard(ACK)], ev[1..], Complete)
    else if !LateNav(ev[0]) then Behind([Heard(ev[0].id)], Exchanging(ev[1..], i, copies))
    else if copies > 1 then Sending([Heard(ev[0].id)], ev[1..], TimedOut)
    else Behind([Heard(ev[0].id), Wrote(i)], Exchanging(ev[1..], i, copies + 1))
  }

  // Messages i to n.
  function SendingFrom(ev: seq<Event>, i: nat, n: nat): Sending
    decreases n - i
  {
    if i >= n then Sending([], ev, Complete) else Behind([Wrote(i)], GoingOn(Exchanging(ev, i, 1), i, n))
  }

  function GoingOn(x: Sending, i: nat, n: nat): Sending
    requires i < n
    decreases n - i, 0
  {
    if x.v != Complete then x else Behind(x.log, SendingFrom(x.rest, i + 1, n))
  }

  lemma BehindTwo(a: seq<Action>, b: seq<Action>, s: Sending)
    ensures Behind(a, Behind(b, s)) == Behind(a + b, s) && Behind([], s) == s
  {
    Associate(a, b, s.log);
  }

  lemma BehindGoingOn(log: seq<Action>, a: seq<Action>, x: Sending, i: nat, n: nat)
    requires i < n
    ensures Behind(log, GoingOn(Behind(a, x), i, n)) == Behind(log + a, GoingOn(x, i, n))
  {
    if x.v == Complete {
      BehindTwo(a, x.log, SendingFrom(x.rest, i + 1, n));
    }
    BehindTwo(log, a, GoingOn(x, i, n));
  }

  // ---------------------------------------------------------------- and what that means

  function Lates(ev: seq<Event>): (n: nat)
    ensures n > 0 <==> exists i :: 0 <= i < |ev| && LateNav(ev[i])
  {
    if ev == [] then 0 else (if LateNav(ev[0]) then 1 else 0) + Lates(ev[1..])
  }

  predicate NoAck(ev: seq<Event>) {
    forall i | 0 <= i < |ev| :: ev[i].id != ACK
  }

  // An exchange that comes off: the first ACK ends it, with at most one late navigation message before.
  predicate Answered(ev: seq<Event>) {
    ev != [] && ev[|ev| - 1].id == ACK && NoAck(ev[..|ev| - 1]) && Lates(ev) <= 1
  }

  // One that is given up at the second late navigation message.
  predicate GivenUp(ev: seq<Event>) {
    ev != [] && LateNav(ev[|ev| - 1]) && NoAck(ev) && Lates(ev) == 2
  }

  function Heards(ev: seq<Event>): seq<Action> {
    seq(|ev|, i requires 0 <= i < |ev| => Heard(ev[i].id))
  }

  function FirstLate(ev: seq<Event>): (f: nat)
    ensures f <= |ev| && (f < |ev| ==> LateNav(ev[f])) && forall j | 0 <= j < f :: !LateNav(ev[j])
  {
    if ev == [] || LateNav(ev[0]) then 0 else 1 + FirstLate(ev[1..])
  }

  // The events in order, and the message once more right behind the first late navigation message, if there is one.
  function Told(ev: seq<Event>, i: nat): seq<Action> {
    var f := FirstLate(ev);
    if f == |ev| then Heards(ev) else Heards(ev[..f + 1]) + [Wrote(i)] + Heards(ev[f + 1..])
  }

  lemma HeardsOne(e: Event, more: seq<Event>)
    ensures Heards([e] + more) == [Heard(e.id)] + Heards(more)
  {
  }

  lemma FirstBehind(e: Event, more: seq<Event>, ev: seq<Event>)
    requires !LateNav(e) && ev == [e] + more
    ensures FirstLate(ev) == 1 + FirstLate(more) && Lates(ev) == Lates(more)
  {
    assert ev[1..] == more;
  }

  lemma ToldAt(ev: seq<Event>, i: nat, f: nat, a: seq<Event>, b: seq<Event>)
    requires f == FirstLate(ev) < |ev| && a == ev[..f + 1] && b == ev[f + 1..]
    ensures Told(ev, i) == Heards(a) + [Wrote(i)] + Heards(b)
  {
  }

  lemma ToldQuiet(e: Event, more: seq<Event>, i: nat)
    requires !LateNav(e)
    ensures Told([e] + more, i) == [Heard(e.id)] + Told(more, i) && Lates([e] + more) == Lates(more)
  {
    var ev, f := [e] + more, FirstLate(more);
    FirstBehind(e, more, ev);
    if f < |more| {
      ToldFurther(e, more, ev, i, f, more[..f + 1], more[f + 1..]);
    } else {
      HeardsOne(e, more);
    }
  }

  lemma ToldFurther(e: Event, more: seq<Event>, ev: seq<Event>, i: nat, f: nat, a: seq<Event>, b: seq<Event>)
    requires f == FirstLate(more) < |more| && f + 1 == FirstLate(ev) && ev == [e] + more && a == more[..f + 1] && b == more[f + 1..]
    ensures Told(ev, i) == [Heard(e.id)] + Told(more, i)
  {
    CutBehind(e, more, ev, f + 1, a, b);
    ToldAt(ev, i, f + 1, [e] + a, b);
    ToldAt(more, i, f, a, b);
    HeardsOne(e, a);
    AssociateThree([Heard(e.id)], Heards(a), [Wrote(i)], Heards(b));
  }

  lemma CutBehind(e: Event, more: seq<Event>, ev: seq<Event>, f: nat, a: seq<Event>, b: seq<Event>)
    requires ev == [e] + more && f <= |more| && a == more[..f] && b == more[f..]
    ensures ev[..f + 1] == [e] + a && ev[f + 1..] == b
  {
  }

  lemma ToldLate(e: Event, more: seq<Event>, i: nat)
    requires LateNav(e)
    ensures Told([e] + more, i) == [Heard(e.id), Wrote(i)] + Heards(more) && Lates([e] + more) == 1 + Lates(more)
  {
    var ev := [e] + more;
    assert ev[1..] == more && ev[..1] == [e] && Heards([e]) == [Heard(e.id)];
  }

  // The exchange over these events, the message having been written once.
  ghost predicate Went(s: Sending, ev: seq<Event>, part: seq<Event>, i: nat) {
    && ev == part + s.rest && s.log == Told(part, i)
    && (s.v == Complete ==> Answered(part)) && (s.v == TimedOut ==> GivenUp(part))
    && (s.v == NoInput ==> s.rest == [] && NoAck(part) && Lates(part) <= 1)
  }

  // The same for an exchange whose message was written twice.
  ghost predicate WentOn(s: Sending, ev: seq<Event>, part: seq<Event>) {
    && ev == part + s.rest && s.log == Heards(part)
    && (s.v == Complete ==> part != [] && part[|part| - 1].id == ACK && NoAck(part[..|part| - 1]) && Lates(part) == 0)
    && (s.v == TimedOut ==> part != [] && LateNav(part[|part| - 1]) && NoAck(part) && Lates(part) == 1)
    && (s.v == NoInput ==> s.rest == [] && NoAck(part) && Lates(part) == 0)
  }

  lemma {:induction false} OneExchange(ev: seq<Event>, i: nat) returns (part: seq<Event>)
    ensures Went(Exchanging(ev, i, 1), ev, part, i)
  {
    if ev == [] {
      part := [];
    } else {
      var e, rest := ev[0], ev[1..];
      assert ev == [e] + rest;
      if e.id == ACK {
        part := [e];
        AckTold(e, i);
      } else if !LateNav(e) {
        var more := OneExchange(rest, i);
        part := [e] + more;
        QuietFirst(e, rest, more, i, Exchanging(rest, i, 1));
      } else {
        var more := Repetition(rest, i);
        part := [e] + more;
        LateFirst(e, rest, more, i, Exchanging(rest, i, 2));
      }
    }
  }

  lemma AckTold(e: Event, i: nat)
    requires e.id == ACK
    ensures Told([e], i) == [Heard(ACK)] && Answered([e])
  {
    ToldQuiet(e, [], i);
    assert [e] + [] == [e] && Told([], i) == [];
  }

  lemma QuietFirst(e: Event, rest: seq<Event>, more: seq<Event>, i: nat, s: Sending)
    requires e.id != ACK && !LateNav(e) && Went(s, rest, more, i)
    ensures Went(Behind([Heard(e.id)], s), [e] + rest, [e] + more, i)
  {
    ToldQuiet(e, more, i);
    OneMore(e, more);
    Associate([e], more, s.rest);
  }

  lemma LateFirst(e: Event, rest: seq<Event>, more: seq<Event>, i: nat, s: Sending)
    requires LateNav(e) && WentOn(s, rest, more)
    ensures Went(Behind([Heard(e.id), Wrote(i)], s), [e] + rest, [e] + more, i)
  {
    ToldLate(e, more, i);
    OneMore(e, more);
    Associate([e], more, s.rest);
  }

  lemma OneMore(e: Event, more: seq<Event>)
    requires e.id != ACK
    ensures NoAck(more) ==> NoAck([e] + more)
    ensures more != [] && NoAck(more[..|more| - 1]) ==> NoAck(([e] + more)[..|more|])
  {
  }

  lemma {:induction false} Repetition(ev: seq<Event>, i: nat) returns (part: seq<Event>)
    ensures WentOn(Exchanging(ev, i, 2), ev, part)
  {
    if ev == [] {
      part := [];
    } else if ev[0].id == ACK || LateNav(ev[0]) {
      part := [ev[0]];
    } else {
      var more := Repetition(ev[1..], i);
      part := [ev[0]] + more;
      assert part[1..] == more;
    }
  }

  // An exchange that can be answered is.
  lemma {:induction false} IsAnswered(part: seq<Event>, rest: seq<Event>, i: nat, copies: nat)
    requires part != [] && part[|part| - 1].id == ACK && NoAck(part[..|part| - 1]) && copies + Lates(part) <= 2 && copies > 0
    ensures var s := Exchanging(part + rest, i, copies); s.v == Complete && s.rest == rest
  {
    var e, more := part[0], part[1..];
    assert part == [e] + more && (part + rest)[1..] == more + rest && (part + rest)[0] == e;
    if more == [] {
      assert more + rest == rest;
    } else {
      assert part[..|part| - 1][0] == e && more[..|more| - 1] == part[..|part| - 1][1..];
      IsAnswered(more, rest, i, if LateNav(e) then copies + 1 else copies);
    }
  }

  function Joined(parts: seq<seq<Event>>): seq<Event> {
    if parts == [] then [] else parts[0] + Joined(parts[1..])
  }

  predicate AllAnswered(parts: seq<seq<Event>>) {
    forall k | 0 <= k < |parts| :: Answered(parts[k])
  }

  // One exchange after the other, each message first.
  function LogOf(parts: seq<seq<Event>>, i: nat): seq<Action> {
    if parts == [] then [] else [Wrote(i)] + Told(parts[0], i) + LogOf(parts[1..], i + 1)
  }

  // How sending ended, from the events of the exchanges: all came off, or the next one did not.
  ghost predicate Ended(s: Sending, parts: seq<seq<Event>>, last: seq<Event>, i: nat, n: nat) {
    && AllAnswered(parts)
    && if s.v == Complete then i + |parts| == n && last == [] && s.log == LogOf(parts, i)
       else
         && i + |parts| < n && s.log == LogOf(parts + [last], i)
         && if s.v == TimedOut then GivenUp(last) else s.v == NoInput && s.rest == [] && NoAck(last) && Lates(last) <= 1
  }

  /** For all events: the queue is sent exchange by exchange until one gets no answer, because two late navigation
      messages come first, or because nothing comes any more; every exchange begins with its message and repeats it
      right behind the first late navigation message only. */
  lemma {:induction false} SendingMeans(ev: seq<Event>, i: nat, n: nat) returns (parts: seq<seq<Event>>, last: seq<Event>)
    requires i <= n
    ensures var s := SendingFrom(ev, i, n); ev == Joined(parts) + last + s.rest && Ended(s, parts, last, i, n)
    decreases n - i
  {
    if i == n {
      parts, last := [], [];
    } else {
      var x := Exchanging(ev, i, 1);
      var part := OneExchange(ev, i);
      if x.v == Complete {
        var more;
        more, last := SendingMeans(x.rest, i + 1, n);
        parts := [part] + more;
        FirstPart(ev, part, more, last, i, n, x, SendingFrom(x.rest, i + 1, n));
      } else {
        parts, last := [], part;
        NoPart(ev, part, i, n, x);
      }
    }
  }

  lemma FirstPart(ev: seq<Event>, part: seq<Event>, more: seq<seq<Event>>, last: seq<Event>, i: nat, n: nat, x: Sending, s: Sending)
    requires Went(x, ev, part, i) && x.v == Complete && Ended(s, more, last, i + 1, n) && x.rest == Joined(more) + last + s.rest
    ensures Ended(Behind([Wrote(i)], Behind(x.log, s)), [part] + more, last, i, n)
    ensures ev == Joined([part] + more) + last + s.rest
  {
    EndedMore(part, more, last, i, n, x.log, s);
    JoinedOne(part, more);
    AssociateThree(part, Joined(more), last, s.rest);
  }

  lemma JoinedOne(part: seq<Event>, more: seq<seq<Event>>)
    ensures Joined([part] + more) == part + Joined(more)
  {
    assert ([part] + more)[1..] == more;
  }

  lemma LogOfOne(part: seq<Event>, more: seq<seq<Event>>, i: nat)
    ensures LogOf([part] + more, i) == [Wrote(i)] + Told(part, i) + LogOf(more, i + 1)
  {
    assert ([part] + more)[1..] == more;
  }

  lemma EndedMore(part: seq<Event>, more: seq<seq<Event>>, last: seq<Event>, i: nat, n: nat, log: seq<Action>, s: Sending)
    requires Answered(part) && log == Told(part, i) && Ended(s, more, last, i + 1, n)
    ensures Ended(Behind([Wrote(i)], Behind(log, s)), [part] + more, last, i, n)
  {
    Associate([Wrote(i)], log, s.log);
    LogOfOne(part, more, i);
    LogOfOne(part, more + [last], i);
    assert [part] + more + [last] == [part] + (more + [last]);
  }

  lemma NoPart(ev: seq<Event>, part: seq<Event>, i: nat, n: nat, x: Sending)
    requires Went(x, ev, part, i) && (x.v == TimedOut || x.v == NoInput) && i < n
    ensures Ended(Behind([Wrote(i)], x), [], part, i, n) && ev == Joined([]) + part + x.rest
  {
    var none: seq<seq<Event>> := [];
    assert none + [part] == [part] && [part][1..] == none && LogOf(none, i + 1) == [];
  }

  // The events begin with an answer to each of n messages.
  ghost predicate Answers(ev: seq<Event>, n: nat) {
    exists parts, rest :: AnswersAre(ev, n, parts, rest)
  }

  ghost predicate AnswersAre(ev: seq<Event>, n: nat, parts: seq<seq<Event>>, rest: seq<Event>) {
    |parts| == n && AllAnswered(parts) && ev == Joined(parts) + rest
  }

  /** And the queue is sent whole exactly if the events begin with an answer to each message. */
  lemma SentExactly(ev: seq<Event>, n: nat)
    ensures SendingFrom(ev, 0, n).v == Complete <==> Answers(ev, n)
  {
    if SendingFrom(ev, 0, n).v == Complete {
      SentIsAnswered(ev, n);
    }
    if Answers(ev, n) {
      var parts, rest :| AnswersAre(ev, n, parts, rest);
      IsSent(parts, rest, 0, n);
    }
  }

  lemma SentIsAnswered(ev: seq<Event>, n: nat)
    requires SendingFrom(ev, 0, n).v == Complete
    ensures Answers(ev, n)
  {
    var rest := SendingFrom(ev, 0, n).rest;
    var parts, last := SendingMeans(ev, 0, n);
    assert Joined(parts) + last == Joined(parts);
    assert AnswersAre(ev, n, parts, rest);
  }

  lemma {:induction false} IsSent(parts: seq<seq<Event>>, rest: seq<Event>, i: nat, n: nat)
    requires i + |parts| == n && AllAnswered(parts)
    ensures SendingFrom(Joined(parts) + rest, i, n).v == Complete && SendingFrom(Joined(parts) + rest, i, n).rest == rest
    decreases |parts|
  {
    if parts == [] {
      assert Joined(parts) + rest == rest;
    } else {
      Associate(parts[0], Joined(parts[1..]), rest);
      IsAnswered(parts[0], Joined(parts[1..]) + rest, i, 1);
      IsSent(parts[1..], rest, i + 1, n);
    }
  }

  datatype Queued = Queued(id: int, body: seq<Byte>)

  // The messages queued by add_to_batch, in a growing array.
  class SendQueue {
    var a: array<Queued>
    var max: nat
    var count: nat

    ghost predicate Inv()
      reads this
    {
      count <= max && max == a.Length
    }

    ghost function Items(): seq<Queued>
      reads this, a
      requires Inv()
    {
      a[..count]
    }

    constructor ()
      ensures Inv() && Items() == [] && fresh(a)
    {
      a := new Queued[0](_ => Queued(0, []));
      max, count := 0, 0;
    }

    /** Queues a message behind the others, growing the array when it is full. */
    method AddToBatch(id: int, body: seq<Byte>)
      requires Inv()
      modifies this, a
      ensures Inv() && (a == old(a) || fresh(a))
      ensures Items() == old(Items()) + [Queued(id, body)]
    {
      if count == max {
        if max == 0 {
          max := 50;
        }
        max := max + max;
        a := Grow(a, count, max, Queued(0, []));
      }
      a[count] := Queued(id, body);
      count := count + 1;
      assert a[..count] == a[..count - 1] + [Queued(id, body)];
    }

    /** Sends the queue and, if all of it is sent, waits for "transfer complete"; how that ends is not looked at
        unless the device reports an error. What is sent and heard follows from the events: SendingMeans and
        SentExactly say how. */
    method SendBatch(dev: Device) returns (sent: bool, v: Verdict, log: seq<Action>, ghost rounds: seq<seq<Action>>, ghost tail: seq<Action>, ghost rest: seq<Event>)
      requires Inv()
      modifies this, dev
      ensures Inv() && Run(log, rounds, tail) && |rounds| <= |old(Items())| && HeardIds(log) + Ids(rest) == Ids(old(dev.incoming))
      ensures var s := SendingFrom(old(dev.incoming), 0, |old(Items())|); log == s.log && rest == s.rest && (sent <==> s.v == Complete) && (!sent ==> v == s.v)
      ensures sent ==> tail == [] && |rounds| == |old(Items())|
      ensures sent ==> Waited(rest, TRANSFER_COMPLETE, v, dev.incoming, old(dev.acked), dev.acked)
      ensures Items() == if sent && v != NoInput && v != DeviceError then [] else old(Items())
      ensures !sent ==> dev.incoming == rest && dev.acked == old(dev.acked)
    {
      v, log, rounds, tail := SendAll(dev);
      sent, rest := v == Complete, dev.incoming;
      if sent {
        v := dev.MessageRead(TRANSFER_COMPLETE);
        if v != NoInput && v != DeviceError {
          count := 0;
        }
      }
    }

    /** Sends the messages, waiting for an ACK after each and repeating a message at most once.
        `log` is what went over the line; RunIsSafe says what any such log guarantees. */
    method SendAll(dev: Device) returns (v: Verdict, log: seq<Action>, ghost rounds: seq<seq<Action>>, ghost tail: seq<Action>)
      requires Inv()
      modifies dev`incoming
      ensures Run(log, rounds, tail) && |rounds| <= |Items()|
      ensures HeardIds(log) + Ids(dev.incoming) == Ids(old(dev.incoming))
      ensures Sending(log, dev.incoming, v) == SendingFrom(old(dev.incoming), 0, |Items()|)
      ensures v == Complete ==> tail == [] && |rounds| == |Items()|
    {
      log, rounds, tail := [], [], [];
      var n, i := count, 0;
      ghost var target := SendingFrom(dev.incoming, 0, n);
      BehindTwo([], [], target);
      while i < n
        invariant n == count && i == |rounds| <= n && Run(log, rounds, []) && tail == []
        invariant HeardIds(log) + Ids(dev.incoming) == Ids(old(dev.incoming))
        invariant Behind(log, SendingFrom(dev.incoming, i, n)) == target
      {
        v, log, tail := SendOne(dev, i, n, log, rounds);
        if v != Complete {
          return;
        }
        rounds, tail := rounds + [tail], [];
        i := i + 1;
      }
      v := Complete;
      BehindNone(log, dev.incoming);
    }
  }

  lemma BehindNone(log: seq<Action>, rest: seq<Event>)
    ensures Behind(log, Sending([], rest, Complete)) == Sending(log, rest, Complete)
  {
    assert log + [] == log;
  }

  // One exchange, `tail` being what it adds to the log.
  method SendOne(dev: Device, i: nat, n: nat, log0: seq<Action>, ghost rounds: seq<seq<Action>>) returns (v: Verdict, log: seq<Action>, ghost tail: seq<Action>)
    requires i < n && i == |rounds| && Run(log0, rounds, [])
    modifies dev`incoming
    ensures HeardIds(log) + Ids(dev.incoming) == HeardIds(log0) + Ids(old(dev.incoming))
    ensures if v == Complete then Run(log, rounds + [tail], []) else Run(log, rounds, tail)
    ensures Behind(log0, SendingFrom(old(dev.incoming), i, n))
      == if v == Complete then Behind(log, SendingFrom(dev.incoming, i + 1, n)) else Sending(log, dev.incoming, v)
  {
    var timeoutCount := 0;
    ghost var target, heard := Behind(log0, SendingFrom(dev.incoming, i, n)), HeardIds(log0) + Ids(dev.incoming);
    OpenExchange(log0, rounds, i);
    HeardOne(log0, Wrote(i), Event(0, [], false), []);
    BehindTwo(log0, [Wrote(i)], GoingOn(Exchanging(dev.incoming, i, 1), i, n));
    log, tail := log0 + [Wrote(i)], [Wrote(i)];
    while true
      invariant Run(log, rounds, tail) && tail != [] && timeoutCount <= 1 && Writes(tail, i) == 1 + timeoutCount
      invariant HeardIds(log) + Ids(dev.incoming) == heard
      invariant Behind(log, GoingOn(Exchanging(dev.incoming, i, 1 + timeoutCount), i, n)) == target
      decreases |dev.incoming|
    {
      if dev.incoming == [] {
        NothingHeard(log, i, 1 + timeoutCount, n);
        return NoInput, log, tail;
      }
      var e := dev.incoming[0];
      assert dev.incoming == [e] + dev.incoming[1..];
      dev.incoming := dev.incoming[1..];
      HeardOne(log, Heard(e.id), e, dev.incoming);
      OneEvent(log, e, dev.incoming, i, 1 + timeoutCount, n);
      if e.id == ACK {
        CloseExchange(log, rounds, tail);
        return Complete, log + [Heard(ACK)], tail + [Heard(ACK)];
      }
      GoOn(log, rounds, tail, Heard(e.id));
      log, tail := log + [Heard(e.id)], tail + [Heard(e.id)];
      if e.id == NAVIGATION && e.late {
        if timeoutCount > 0 {
          return TimedOut, log, tail;
        }
        timeoutCount := timeoutCount + 1;
        GoOn(log, rounds, tail, Wrote(i));
        HeardOne(log, Wrote(i), e, []);
        log, tail := log + [Wrote(i)], tail + [Wrote(i)];
      }
    }
  }

  lemma NothingHeard(log: seq<Action>, i: nat, copies: nat, n: nat)
    requires i < n
    ensures Behind(log, GoingOn(Exchanging([], i, copies), i, n)) == Sending(log, [], NoInput)
  {
    assert log + [] == log;
  }

  // One event heard, and what it leads to.
  lemma OneEvent(log: seq<Action>, e: Event, rest: seq<Event>, i: nat, copies: nat, n: nat)
    requires i < n
    ensures var log', s := log + [Heard(e.id)], Behind(log, GoingOn(Exchanging([e] + rest, i, copies), i, n));
      if e.id == ACK then s == Behind(log', SendingFrom(rest, i + 1, n))
      else if !LateNav(e) then s == Behind(log', GoingOn(Exchanging(rest, i, copies), i, n))
      else if copies > 1 then s == Sending(log', rest, TimedOut)
      else s == Behind(log' + [Wrote(i)], GoingOn(Exchanging(rest, i, copies + 1), i, n))
  {
    assert ([e] + rest)[1..] == rest;
    if e.id == ACK {
      BehindTwo(log, [Heard(ACK)], SendingFrom(rest, i + 1, n));
    } else if !LateNav(e) {
      BehindGoingOn(log, [Heard(e.id)], Exchanging(rest, i, copies), i, n);
    } else if copies <= 1 {
      assert log + [Heard(e.id), Wrote(i)] == log + [Heard(e.id)] + [Wrote(i)];
      BehindGoingOn(log, [Heard(e.id), Wrote(i)], Exchanging(rest, i, copies + 1), i, n);
    }
  }
}
