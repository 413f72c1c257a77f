// What reaches the application: bytes in every mode, messages in message mode.
module KcpHanded {
  import opened Words
  import opened KcpWire
  import opened KcpSpec
  import opened KcpInvariant
  import opened KcpFlow
  import opened KcpBytes
  import opened KcpPair

  // ---- bytes of pieces --------------------------------------------------------

  lemma {:induction false} FlatAppend(a: seq<Piece>, b: seq<Piece>)
    ensures Flat(a + b) == Flat(a) + Flat(b)
  {
    if b == [] {
      assert a + b == a && Flat(a) + [] == Flat(a);
    } else {
      var n := |b| - 1;
      assert (a + b)[..|a + b| - 1] == a + b[..n];
      FlatAppend(a, b[..n]);
    }
  }

  lemma {:induction false} FlatContents(q: seq<Segment>)
    ensures Flat(Contents(q)) == Join(q)
  {
    if q != [] {
      var n := |q| - 1;
      assert Contents(q)[..n] == Contents(q[..n]);
      FlatContents(q[..n]);
      JoinStep(q, n);
      assert q[..n + 1] == q;
    }
  }

  // ---- Send ---------------------------------------------------------------------

  lemma {:induction false} ChunksWhole(msg: Payload, mss: nat)
    requires mss > 0 && msg != []
    ensures forall c <- Chunks(msg, mss) :: c.frg == 0 && c.data != []
    decreases |msg|
  {
    if |msg| > mss { ChunksWhole(msg[mss..], mss); }
  }

  ghost predicate AllWhole(q: seq<Segment>) {
    forall i :: 0 <= i < |q| ==> q[i].frg == 0 && q[i].data != []
  }

  lemma {:induction false} QueueStreamed(q: seq<Segment>, msg: Payload, mss: nat)
    requires 0 < mss < U32 && AllWhole(q)
    ensures var rest := msg[Room(q, |msg|, mss)..];
            AllWhole(FillLast(q, msg, mss)) && (rest != [] ==> AllWhole(FillLast(q, msg, mss) + Chunks(rest, mss)))
  {
    var rest := msg[Room(q, |msg|, mss)..];
    if rest != [] { ChunksWhole(rest, mss); }
  }

  lemma {:induction false} SendStreamed(p: Peer, msg: Payload)
    requires p.ep.cfg.Valid() && p.ep.cfg.stream && Streamed(LogOf(p))
    ensures Streamed(LogOf(SendStep(p, msg)))
  {
    var q, q1 := p.ep.snd.queue, KcpSpec.Send(p.ep, msg).0.snd.queue;
    forall i | 0 <= i < |q| ensures q[i].frg == 0 && q[i].data != [] {
      assert LogOf(p)[|p.sent| + i] == Content(q[i]);
    }
    QueueStreamed(q, msg, p.ep.cfg.Mss());
    assert AllWhole(q1);
    var log := p.sent + Contents(q1);
    forall i | 0 <= i < |log| ensures log[i].frg == 0 && log[i].data != [] {
      if i < |p.sent| { assert log[i] == LogOf(p)[i]; } else { assert log[i] == Content(q1[i - |p.sent|]); }
    }
  }

  lemma {:induction false} SendWhole(p: Peer, msg: Payload, delivered: seq<Bytes>, at: int)
    requires p.ep.cfg.Valid() && !p.ep.cfg.stream && HandedWhole(p, delivered, at)
    ensures HandedWhole(SendStep(p, msg), delivered, at)
  {
    var mss := p.ep.cfg.Mss();
    FragmentCount(msg, mss);
    var p1 := SendStep(p, msg);
    if p1.accepted != p.accepted {
      var f := Fragments(msg, mss);
      assert p1.accepted[..|p.accepted|] == p.accepted;
      assert Contents(p1.ep.snd.queue) == Contents(p.ep.snd.queue) + Contents(f);
      assert LogOf(p1) == LogOf(p) + Contents(f);
      assert p1.accepted[..|delivered|] == p.accepted[..|delivered|];
    }
  }

  lemma {:induction false} FlatLog(sent: seq<Piece>, q: seq<Segment>)
    ensures Flat(sent + Contents(q)) == Flat(sent) + Join(q)
  {
    FlatAppend(sent, Contents(q));
    FlatContents(q);
  }

  lemma {:induction false} SendTakes(p: Peer, msg: Payload)
    requires p.ep.cfg.Valid() && Flat(LogOf(p)) == p.taken
    ensures Flat(LogOf(SendStep(p, msg))) == SendStep(p, msg).taken
  {
    var q, q1 := p.ep.snd.queue, SendStep(p, msg).ep.snd.queue;
    SendBytes(p.ep, msg);
    FlatLog(p.sent, q);
    FlatLog(p.sent, q1);
    assert Flat(p.sent) + (Join(q) + Taken(p.ep, msg)) == Flat(p.sent) + Join(q) + Taken(p.ep, msg);
  }

  lemma {:induction false} SendHanded(p: Peer, msg: Payload, delivered: seq<Bytes>, at: int)
    requires p.ep.cfg.Valid() && Handed(p, delivered, at)
    ensures Handed(SendStep(p, msg), delivered, at)
  {
    SendTakes(p, msg);
    if p.ep.cfg.stream { SendStreamed(p, msg); } else { SendWhole(p, msg, delivered, at); }
  }

  // ---- everything but Send and Recv -----------------------------------------------

  lemma {:induction false} CalmHanded(p: Peer, p1: Peer, delivered: seq<Bytes>, at: int)
    requires Calm(p, p1) && Handed(p, delivered, at)
    ensures Handed(p1, delivered, at)
  {
    assert p1.sent[..at] == p.sent[..at];
  }

  // ---- Recv -----------------------------------------------------------------------

  // The receive queue of q starts at a message boundary of what p accepted.
  lemma {:induction false} QueueAtBoundary(p: Peer, q: Peer)
    requires p.ep.cfg.Valid() && RecvSide(q, p) && HandedWhole(p, q.delivered, Returned(q)) && q.ep.rcv.queue != []
    ensures var d, mss := |q.delivered|, p.ep.cfg.Mss();
            && d < |p.accepted| && Acceptable(p.accepted[d], mss)
            && |Log(p.accepted[..d + 1], mss)| == Returned(q) + |Fragments(p.accepted[d], mss)|
            && var f := Contents(Fragments(p.accepted[d], mss));
               Contents(q.ep.rcv.queue) <= f || f <= Contents(q.ep.rcv.queue)
  {
    var d, mss, log := |q.delivered|, p.ep.cfg.Mss(), LogOf(p);
    var queue, lo := Contents(q.ep.rcv.queue), Returned(q);
    assert p.accepted[..|p.accepted|] == p.accepted;
    LogSlice(p.accepted, mss, d);
    assert p.accepted[..d + 1][..d] == p.accepted[..d];
    assert p.accepted[d] in p.accepted;
    assert queue == p.sent[lo..lo + |queue|];
    SlicesMeet(log, Log(p.accepted[..d], mss), Contents(Fragments(p.accepted[d], mss)), p.sent, queue);
  }

  // Two slices of a log that start together.
  lemma {:induction false} SlicesMeet(log: seq<Piece>, before: seq<Piece>, f: seq<Piece>, sent: seq<Piece>,
                                      queue: seq<Piece>)
    requires before + f <= log && sent <= log && |before| + |queue| <= |sent|
    requires queue == sent[|before|..|before| + |queue|]
    ensures queue <= f || f <= queue
  {
    var lo := |before|;
    assert f == (before + f)[lo..] == log[lo..lo + |f|];
    assert queue == log[lo..lo + |queue|];
    if |queue| <= |f| { assert queue == f[..|queue|]; } else { assert f == queue[..|f|]; }
  }

  // In message mode Recv returns the next message that p accepted.
  lemma {:induction false} RecvWhole(p: Peer, q: Peer)
    requires p.ep.cfg.Valid() && RecvSide(q, p) && HandedWhole(p, q.delivered, Returned(q)) && Ready(q.ep.rcv.queue)
    ensures var n := MessageEnd(q.ep.rcv.queue);
            HandedWhole(p, q.delivered + [Join(q.ep.rcv.queue[..n])], Returned(q) + n)
  {
    QueueAtBoundary(p, q);
    QueueFront(q.ep.rcv.queue, p.accepted[|q.delivered|], p.ep.cfg.Mss());
    var d := q.delivered + [p.accepted[|q.delivered|]];
    assert p.accepted[..|d|] == d;
  }

  // The bytes Recv returns are those of the next pieces, in every mode.
  lemma {:induction false} RecvBytes(p: Peer, q: Peer, n: nat)
    requires RecvSide(q, p) && Concat(q.delivered) == Flat(p.sent[..Returned(q)]) && n <= |q.ep.rcv.queue|
    ensures Returned(q) + n <= |p.sent|
    ensures Concat(q.delivered + [Join(q.ep.rcv.queue[..n])]) == Flat(p.sent[..Returned(q) + n])
  {
    MoreBytes(p.sent, Returned(q), q.ep.rcv.queue, q.delivered, n);
  }

  // The next n pieces of the log, from lo on, are at the front of the queue.
  lemma {:induction false} MoreBytes(sent: seq<Piece>, lo: nat, queue: seq<Segment>, delivered: seq<Bytes>, n: nat)
    requires lo + |queue| <= |sent| && Contents(queue) == sent[lo..lo + |queue|] && n <= |queue|
    requires Concat(delivered) == Flat(sent[..lo])
    ensures Concat(delivered + [Join(queue[..n])]) == Flat(sent[..lo + n])
  {
    assert Contents(queue[..n]) == Contents(queue)[..n] == sent[lo..lo + n];
    assert sent[..lo + n] == sent[..lo] + sent[lo..lo + n];
    FlatAppend(sent[..lo], sent[lo..lo + n]);
    FlatContents(queue[..n]);
    ConcatMore(delivered, Join(queue[..n]));
  }

  lemma {:induction false} ConcatMore(parts: seq<Bytes>, part: Bytes)
    ensures Concat(parts + [part]) == Concat(parts) + part
  {
    assert (parts + [part])[..|parts|] == parts;
  }

  lemma {:induction false} RecvHanded(p: Peer, q: Peer, n: nat)
    requires p.ep.cfg.Valid() && RecvSide(q, p) && Handed(p, q.delivered, Returned(q)) && Ready(q.ep.rcv.queue)
    requires n == MessageEnd(q.ep.rcv.queue)
    ensures Handed(p, q.delivered + [Join(q.ep.rcv.queue[..n])], Returned(q) + n)
  {
    RecvBytes(p, q, n);
    if !p.ep.cfg.stream { RecvWhole(p, q); }
  }
}
