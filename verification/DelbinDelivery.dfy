// The transfer layer over the packet layer: what reaches the other side of the line when a queue is sent.
module DelbinDelivery {
  import opened Bytes
  import opened DelbinFrame
  import opened DelbinStream
  import Batch = DelbinBatch

  // The queue indices that a log writes, in order.
  function Written(log: seq<Batch.Action>): (ix: seq<nat>)
    ensures |ix| <= |log|
  {
    if log == [] then []
    else
      var last := log[|log| - 1];
      Written(log[..|log| - 1]) + if last.Wrote? then [last.i] else []
  }

  // An index is written as often as the log says,
  lemma {:induction false} WrittenCount(log: seq<Batch.Action>, i: nat)
    ensures multiset(Written(log))[i] == Batch.Writes(log, i)
  {
    if log == [] {
      assert Written(log) == [];
    } else {
      WrittenCount(log[..|log| - 1], i);
    }
  }

  // where the log says,
  lemma {:induction false} WrittenStands(log: seq<Batch.Action>, j: nat) returns (p: nat)
    requires j < |Written(log)|
    ensures p < |log| && log[p] == Batch.Wrote(Written(log)[j])
  {
    p := |log| - 1;
    if j < |Written(log[..p])| {
      p := WrittenStands(log[..p], j);
    }
  }

  // and in its order.
  lemma {:induction false} WrittenInOrder(log: seq<Batch.Action>)
    requires Batch.InOrder(log)
    ensures Ascending(Written(log))
  {
    if log != [] {
      var m := |log| - 1;
      var ix := Written(log[..m]);
      WrittenInOrder(log[..m]);
      forall j | 0 <= j < |ix| ensures log[m].Wrote? ==> ix[j] <= log[m].i {
        var p := WrittenStands(log[..m], j);
        assert log[p] == Batch.Wrote(ix[j]);
      }
    }
  }

  ghost predicate Ascending(ix: seq<nat>) {
    forall j, l | 0 <= j < l < |ix| :: ix[j] <= ix[l]
  }

  // Every message at least once and at most twice, and no other.
  ghost predicate EachOnceOrTwice(ix: seq<nat>, n: nat) {
    (forall j | 0 <= j < |ix| :: ix[j] < n) && forall i: nat | i < n :: 1 <= multiset(ix)[i] <= 2
  }

  lemma WrittenMeaning(log: seq<Batch.Action>, rounds: seq<seq<Batch.Action>>)
    requires Batch.Run(log, rounds, [])
    ensures Ascending(Written(log)) && EachOnceOrTwice(Written(log), |rounds|)
  {
    Batch.ExchangesMeaning(rounds);
    assert log == Batch.Flat(rounds);
    WrittenInOrder(log);
    var ix, n := Written(log), |rounds|;
    forall j | 0 <= j < |ix| ensures ix[j] < n {
      var p := WrittenStands(log, j);
    }
    forall i: nat | i < n ensures 1 <= multiset(ix)[i] <= 2 {
      WrittenCount(log, i);
    }
  }

  // What goes over the line, with packets of no meaning before each message.
  function Traffic(queue: seq<Batch.Queued>, ix: seq<nat>, junk: seq<seq<Packet>>): (ms: seq<Sent>)
    requires |junk| == |ix| && forall j | 0 <= j < |ix| :: ix[j] < |queue|
    ensures |ms| == |ix| && forall j | 0 <= j < |ix| :: ms[j] == Sent(junk[j], queue[ix[j]].id, queue[ix[j]].body)
  {
    seq(|ix|, j requires 0 <= j < |ix| => Sent(junk[j], queue[ix[j]].id, queue[ix[j]].body))
  }

  lemma {:induction false} ContentsAre(ms: seq<Sent>)
    ensures |Contents(ms)| == |ms| && forall j | 0 <= j < |ms| :: Contents(ms)[j] == (ms[j].id, ms[j].body)
  {
    if ms != [] {
      ContentsAre(ms[1..]);
    }
  }

  /** A queue that was sent to the end arrives: the other side reads queued messages only, in queue order, each of
      them once or twice, for every packet size, whatever stands in the line before each message. */
  lemma QueueArrives(k: nat, cur: seq<Byte>, queue: seq<Batch.Queued>, log: seq<Batch.Action>, rounds: seq<seq<Batch.Action>>, junk: seq<seq<Packet>>)
    requires 8 <= k < 256 && NoHeader(cur) && Batch.Run(log, rounds, []) && |rounds| == |queue|
    requires |junk| == |Written(log)|
    requires forall j, q | 0 <= j < |junk| && q in queue :: Sendable(k, Sent(junk[j], q.id, q.body))
    ensures Ascending(Written(log)) && EachOnceOrTwice(Written(log), |queue|)
    ensures var ix := Written(log);
      var s := Stream(cur, Wire(k, Traffic(queue, ix, junk)));
      && Ok(s) && |Receive(k, s, |ix|)| == |ix|
      && forall j | 0 <= j < |ix| :: Receive(k, s, |ix|)[j] == (queue[ix[j]].id, queue[ix[j]].body)
  {
    var ix := Written(log);
    WrittenMeaning(log, rounds);
    var ms := Traffic(queue, ix, junk);
    forall m | m in ms ensures Sendable(k, m) {
      var j :| 0 <= j < |ms| && ms[j] == m;
      assert queue[ix[j]] in queue;
    }
    AllMessagesArrive(k, cur, ms);
    ContentsAre(ms);
  }
}
