// The bytes that segments carry, and what Send adds to them.
module KcpBytes {
  import opened Words
  import opened KcpWire
  import opened KcpSpec
  import opened KcpFlow
  import opened KcpControl

  lemma {:induction false} JoinOne(q: seq<Segment>)
    requires q != []
    ensures Join(q[..1]) == q[0].data
  {
    assert q[..1][1..] == [];
    assert Join([]) == [];
  }

  lemma {:induction false} JoinAppend(q: seq<Segment>, r: seq<Segment>)
    ensures Join(q + r) == Join(q) + Join(r)
  {
    if q == [] {
      assert q + r == r;
    } else {
      assert (q + r)[1..] == q[1..] + r;
      JoinAppend(q[1..], r);
    }
  }

  lemma {:induction false} JoinStep(q: seq<Segment>, i: nat)
    requires i < |q|
    ensures Join(q[..i + 1]) == Join(q[..i]) + q[i].data
  {
    assert q[..i + 1] == q[..i] + [q[i]];
    JoinAppend(q[..i], [q[i]]);
    JoinOne([q[i]]);
    assert [q[i]][..1] == [q[i]];
  }

  lemma {:induction false} JoinPrefix(q: seq<Segment>, i: nat, e: nat)
    requires i <= e <= |q|
    ensures |Join(q[..i])| <= |Join(q[..e])|
  {
    assert q[..e] == q[..i] + q[i..e];
    JoinAppend(q[..i], q[i..e]);
  }

  lemma {:induction false} ChunksJoin(msg: Payload, mss: nat)
    requires mss > 0
    ensures Join(Chunks(msg, mss)) == msg
    decreases |msg|
  {
    var f := Chunks(msg, mss);
    if |msg| > mss {
      ChunksJoin(msg[mss..], mss);
      assert f[1..] == Chunks(msg[mss..], mss);
      assert msg == msg[..mss] + msg[mss..];
    } else {
      JoinOne(f);
      assert f[..1] == f;
    }
  }

  // Filling up the last segment appends to the queued bytes.
  lemma {:induction false} FillLastBytes(queue: seq<Segment>, msg: Payload, mss: nat)
    requires mss < U32
    ensures Join(FillLast(queue, msg, mss)) == Join(queue) + msg[..Room(queue, |msg|, mss)]
  {
    var extend := Room(queue, |msg|, mss);
    if extend > 0 {
      var n, filled := |queue| - 1, FillLast(queue, msg, mss);
      JoinStep(queue, n);
      JoinStep(filled, n);
      assert queue[..n + 1] == queue && filled[..n + 1] == filled && filled[..n] == queue[..n];
      assert Join(queue[..n]) + (queue[n].data + msg[..extend]) == Join(queue[..n]) + queue[n].data + msg[..extend];
    }
  }

  lemma {:induction false} StreamBytes(queue: seq<Segment>, msg: Payload, mss: nat)
    requires 0 < mss < U32
    ensures var room := Room(queue, |msg|, mss);
            && Join(FillLast(queue, msg, mss)) == Join(queue) + msg[..room]
            && Join(FillLast(queue, msg, mss) + Chunks(msg[room..], mss)) == Join(queue) + msg
            && (room == |msg| ==> msg[..room] == msg)
  {
    var room := Room(queue, |msg|, mss);
    FillLastBytes(queue, msg, mss);
    ChunksJoin(msg[room..], mss);
    JoinAppend(FillLast(queue, msg, mss), Chunks(msg[room..], mss));
    assert msg == msg[..room] + msg[room..];
    assert Join(queue) + msg[..room] + msg[room..] == Join(queue) + (msg[..room] + msg[room..]);
  }

  lemma {:induction false} MessageBytes(queue: seq<Segment>, msg: Payload, mss: nat)
    requires mss > 0
    ensures Join(queue + Fragments(msg, mss)) == Join(queue) + msg
  {
    FragmentsShape(msg, mss);
    JoinAppend(queue, Fragments(msg, mss));
  }

  // What Send takes of a message.
  function Taken(ep: Endpoint, msg: Payload): Bytes
    requires ep.cfg.Valid()
  {
    if Send(ep, msg).1 == 0 then msg
    else if ep.cfg.stream then msg[..Room(ep.snd.queue, |msg|, ep.cfg.Mss())]
    else []
  }

  // Send appends exactly the message to the bytes waiting to be sent.  Refused, it leaves
  // them alone in message mode; in stream mode it has by then appended what fitted into the
  // last queued segment.
  lemma {:induction false} SendBytes(ep: Endpoint, msg: Payload)
    requires ep.cfg.Valid()
    ensures Join(Send(ep, msg).0.snd.queue) == Join(ep.snd.queue) + Taken(ep, msg)
  {
    if ep.cfg.stream {
      StreamBytes(ep.snd.queue, msg, ep.cfg.Mss());
    } else {
      MessageBytes(ep.snd.queue, msg, ep.cfg.Mss());
    }
  }

  // Where a refused Send is not without effect: in stream mode, after a one-byte message, one
  // that needs more than 255 further segments is refused with its first bytes queued.
  lemma {:induction false} RefusedInPart(cfg: Config, first: u8, msg: Payload)
    requires cfg.Valid() && cfg.stream && |msg| > cfg.Mss() - 1 + 255 * cfg.Mss()
    ensures var ep := Send(NewEndpoint(cfg), [first]).0; var (ep1, code) := Send(ep, msg);
            && code == -2 && Join(ep1.snd.queue) == [first] + msg[..cfg.Mss() - 1] != Join(ep.snd.queue)
  {
    var mss := cfg.Mss();
    var ep := Send(NewEndpoint(cfg), [first]).0;
    assert Chunks([first], mss) == [NewSegment(0, [first])];
    assert ep.snd.queue == [NewSegment(0, [first])];
    assert Join(ep.snd.queue) == [first] by { assert ep.snd.queue[1..] == []; assert [first] + [] == [first]; }
    var rest := msg[mss - 1..];
    CountOver(|rest|, mss);
    SendBytes(ep, msg);
  }

  lemma {:induction false} CountOver(n: nat, mss: nat)
    requires mss > 1 && n > 255 * mss
    ensures Count(n, mss) > 255
  {
    var q, r := (n + mss - 1) / mss, (n + mss - 1) % mss;
    assert n + mss - 1 == q * mss + r;
    if q <= 255 { TimesAtMost(q, 255, mss); }
  }
}
