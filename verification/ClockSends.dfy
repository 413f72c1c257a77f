// What a clock sends to the channels of its timers, against the log of its deliveries.
module ClockSends {
  import opened ClockSpec

  datatype Promise = Promise(timerId: int, now: int, data: int)
  datatype Sending = ToReceiver(ch: nat, promise: Promise) | ToBatch(ch: nat, promises: seq<Promise>)

  // What the receiver ch got.
  function Received(out: seq<Sending>, ch: nat): seq<Promise> {
    if out == [] then []
    else
      var x := out[|out| - 1];
      Received(out[..|out| - 1], ch) + if x.ToReceiver? && x.ch == ch then [x.promise] else []
  }

  // What the batch receiver ch got, in all its batches.
  function BatchReceived(out: seq<Sending>, ch: nat): seq<Promise> {
    if out == [] then []
    else
      var x := out[|out| - 1];
      BatchReceived(out[..|out| - 1], ch) + if x.ToBatch? && x.ch == ch then x.promises else []
  }

  // The deliveries logged for a sink.
  function LoggedTo(log: seq<Attempt>, sink: Sink): seq<Promise> {
    if log == [] then []
    else
      var e := log[|log| - 1];
      LoggedTo(log[..|log| - 1], sink) +
      if e.sent && e.timer.sink == sink then [Promise(e.timer.id, e.now, e.timer.data)] else []
  }

  // What is still to be sent to the batch receiver ch.
  function Pending(batchs: map<nat, seq<Promise>>, ch: nat): seq<Promise> {
    if ch in batchs then batchs[ch] else []
  }

  // Each receiver got exactly what was logged for it, in order, or will with its next batch.
  ghost predicate Sends(out: seq<Sending>, batchs: map<nat, seq<Promise>>, log: seq<Attempt>) {
    forall ch: nat :: SendsTo(out, batchs, log, ch)
  }

  ghost predicate SendsTo(out: seq<Sending>, batchs: map<nat, seq<Promise>>, log: seq<Attempt>, ch: nat) {
    && Received(out, ch) == LoggedTo(log, Receiver(ch))
    && BatchReceived(out, ch) + Pending(batchs, ch) == LoggedTo(log, Batch(ch))
  }

  lemma {:induction false} LogMore(log: seq<Attempt>, e: Attempt, sink: Sink)
    ensures LoggedTo(log + [e], sink) ==
      LoggedTo(log, sink) + if e.sent && e.timer.sink == sink then [Promise(e.timer.id, e.now, e.timer.data)] else []
  {
    assert (log + [e])[..|log|] == log;
  }

  lemma {:induction false} OutMore(out: seq<Sending>, x: Sending, ch: nat)
    ensures Received(out + [x], ch) == Received(out, ch) + if x.ToReceiver? && x.ch == ch then [x.promise] else []
    ensures BatchReceived(out + [x], ch) == BatchReceived(out, ch) + if x.ToBatch? && x.ch == ch then x.promises else []
  {
    assert (out + [x])[..|out|] == out;
  }

  lemma {:induction false} NotSent(out: seq<Sending>, batchs: map<nat, seq<Promise>>, log: seq<Attempt>, e: Attempt)
    requires Sends(out, batchs, log) && !e.sent
    ensures Sends(out, batchs, log + [e])
  {
    forall ch: nat ensures SendsTo(out, batchs, log + [e], ch) {
      assert SendsTo(out, batchs, log, ch);
      LogMore(log, e, Receiver(ch));
      LogMore(log, e, Batch(ch));
    }
  }

  lemma {:induction false} SentDirect(out: seq<Sending>, batchs: map<nat, seq<Promise>>, log: seq<Attempt>, e: Attempt)
    requires Sends(out, batchs, log) && e.sent && e.timer.sink.Receiver?
    ensures Sends(out + [ToReceiver(e.timer.sink.ch, Promise(e.timer.id, e.now, e.timer.data))], batchs, log + [e])
  {
    var x := ToReceiver(e.timer.sink.ch, Promise(e.timer.id, e.now, e.timer.data));
    forall ch: nat ensures SendsTo(out + [x], batchs, log + [e], ch) {
      assert SendsTo(out, batchs, log, ch);
      LogMore(log, e, Receiver(ch));
      LogMore(log, e, Batch(ch));
      OutMore(out, x, ch);
    }
  }

  lemma {:induction false} BatchGrows(out: seq<Sending>, batchs: map<nat, seq<Promise>>, log: seq<Attempt>,
                                      e: Attempt, ch: nat)
    requires SendsTo(out, batchs, log, ch) && e.sent && e.timer.sink.Batch?
    ensures var c := e.timer.sink.ch;
            SendsTo(out, batchs[c := Pending(batchs, c) + [Promise(e.timer.id, e.now, e.timer.data)]], log + [e], ch)
  {
    var m := Promise(e.timer.id, e.now, e.timer.data);
    LogMore(log, e, Receiver(ch));
    LogMore(log, e, Batch(ch));
    var got, rest := BatchReceived(out, ch), Pending(batchs, ch);
    assert got + (rest + [m]) == (got + rest) + [m];
  }

  lemma {:induction false} SentInBatch(out: seq<Sending>, batchs: map<nat, seq<Promise>>, log: seq<Attempt>, e: Attempt)
    requires Sends(out, batchs, log) && e.sent && e.timer.sink.Batch?
    ensures var c := e.timer.sink.ch;
            Sends(out, batchs[c := Pending(batchs, c) + [Promise(e.timer.id, e.now, e.timer.data)]], log + [e])
  {
    var c := e.timer.sink.ch;
    var b1 := batchs[c := Pending(batchs, c) + [Promise(e.timer.id, e.now, e.timer.data)]];
    forall ch: nat ensures SendsTo(out, b1, log + [e], ch) {
      assert SendsTo(out, batchs, log, ch);
      BatchGrows(out, batchs, log, e, ch);
    }
  }

  lemma {:induction false} BatchGoes(out: seq<Sending>, batchs: map<nat, seq<Promise>>, log: seq<Attempt>, c: nat,
                                     ch: nat)
    requires SendsTo(out, batchs, log, ch) && c in batchs
    ensures SendsTo(out + [ToBatch(c, batchs[c])], batchs - {c}, log, ch)
  {
    OutMore(out, ToBatch(c, batchs[c]), ch);
    var got := BatchReceived(out, ch);
    assert ch == c ==> got + batchs[c] + [] == got + Pending(batchs, ch);
  }

  lemma {:induction false} BatchSent(out: seq<Sending>, batchs: map<nat, seq<Promise>>, log: seq<Attempt>, c: nat)
    requires Sends(out, batchs, log) && c in batchs
    ensures Sends(out + [ToBatch(c, batchs[c])], batchs - {c}, log)
  {
    forall ch: nat ensures SendsTo(out + [ToBatch(c, batchs[c])], batchs - {c}, log, ch) {
      assert SendsTo(out, batchs, log, ch);
      BatchGoes(out, batchs, log, c, ch);
    }
  }

  // The channels, as the list of what was sent to them.
  class Channels {
    var out: seq<Sending>

    constructor ()
      ensures out == []
    {
      out := [];
    }

    // Send a promise, or put it into its batch.
    method Send(sink: Sink, promise: Promise, batchs: map<nat, seq<Promise>>, ghost log: seq<Attempt>, ghost e: Attempt)
      returns (batchs1: map<nat, seq<Promise>>)
      requires Sends(out, batchs, log) && e.sent && e.timer.sink == sink
      requires promise == Promise(e.timer.id, e.now, e.timer.data)
      modifies this
      ensures Sends(out, batchs1, log + [e])
    {
      match sink
      case Batch(ch) =>
        SentInBatch(out, batchs, log, e);
        batchs1 := batchs[ch := Pending(batchs, ch) + [promise]];
      case Receiver(ch) =>
        SentDirect(out, batchs, log, e);
        batchs1 := batchs;
        out := out + [ToReceiver(ch, promise)];
    }

    // The same after an attempt that may have failed, or was not made.
    method Emit(sent: bool, sink: Sink, promise: Promise, batchs: map<nat, seq<Promise>>,
                ghost log: seq<Attempt>, ghost log1: seq<Attempt>, ghost e: Attempt)
      returns (batchs1: map<nat, seq<Promise>>)
      requires Sends(out, batchs, log) && e.timer.sink == sink && promise == Promise(e.timer.id, e.now, e.timer.data)
      requires if sent then e.sent && log1 == log + [e] else log1 == log || (!e.sent && log1 == log + [e])
      modifies this
      ensures Sends(out, batchs1, log1)
    {
      batchs1 := batchs;
      if sent {
        batchs1 := Send(sink, promise, batchs, log, e);
      } else if log1 != log {
        NotSent(out, batchs, log, e);
      }
    }

    // Send the batches, in any order.
    method SendBatches(batchs: map<nat, seq<Promise>>, ghost log: seq<Attempt>)
      requires Sends(out, batchs, log)
      modifies this
      ensures Sends(out, map[], log)
    {
      var rest := batchs;
      while rest.Keys != {}
        invariant Sends(out, rest, log)
        decreases |rest|
      {
        var ch :| ch in rest.Keys;
        BatchSent(out, rest, log, ch);
        out := out + [ToBatch(ch, rest[ch])];
        rest := rest - {ch};
      }
      assert rest == map[];
    }
  }
}
