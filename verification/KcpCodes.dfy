/** What the operations of an endpoint tell their caller: which bytes Input takes and with which
    code it stops, when Send refuses, and what Recv returns.
 */
module KcpCodes {
  import opened Words
  import opened KcpWire
  import opened KcpSpec
  import opened KcpInvariant
  import opened KcpFlow
  import opened KcpPair
  import opened KcpHanded
  import opened KcpDelivery

  // ---- Input ------------------------------------------------------------------------

  // Fields are written with the least significant byte first.
  lemma {:induction false} LittleEndian(x: u32, y: u16)
    ensures var b := Le32(x);
            b[0] as int + 0x100 * b[1] as int + 0x1_0000 * b[2] as int + 0x100_0000 * b[3] as int == x
    ensures var b := Le16(y); b[0] as int + 0x100 * b[1] as int == y
  {
    assert x / 65536 == x / 256 / 256 && x / 16777216 == x / 65536 / 256;
  }

  // Data that no further segment is taken from, and why: the end, another conversation, a length
  // beyond the end, a command that is not known.
  predicate Stops(conv: u32, rest: Bytes, code: int) {
    if |rest| < OVERHEAD then code == 0
    else if rest[..4] != Le32(conv) then code == -1
    else if |rest| - OVERHEAD < FromLe32(rest, 20) then code == -2
    else !KnownCmd(rest[4]) && code == -3
  }

  lemma {:induction false} FieldBack(b: Bytes, at: nat)
    requires at + 4 <= |b|
    ensures Le32(FromLe32(b, at)) == b[at..at + 4]
  {
    var x := FromLe32(b, at);
    var b0: int, b1: int, b2: int, b3: int := b[at], b[at + 1], b[at + 2], b[at + 3];
    var y := b1 + 256 * b2 + 65536 * b3;
    assert x == b0 + 256 * y;
    assert x / 256 == y && x % 256 == b0;
    assert y / 256 == b2 + 256 * b3 && y % 256 == b1;
    assert x / 65536 == y / 256 && x / 16777216 == y / 65536;
  }

  lemma {:induction false} ConvField(conv: u32, b: Bytes)
    requires |b| >= OVERHEAD
    ensures FromLe32(b, 0) == conv <==> b[..4] == Le32(conv)
  {
    FieldBack(b, 0);
    FieldRoundTrip(FromLe32(b, 0), [], b);
    if b[..4] == Le32(conv) { FieldRoundTrip(conv, [], b); }
  }

  lemma {:induction false} ShortBack(b: Bytes, at: nat)
    requires at + 2 <= |b|
    ensures Le16(FromLe16(b, at)) == b[at..at + 2]
  {
  }

  // A segment that is taken is the bytes taken for it.
  lemma {:induction false} ParsedBack(conv: u32, data: Bytes)
    requires ParseOne(conv, data).Got?
    ensures var p := ParseOne(conv, data); data == Encode(p.w) + p.rest
  {
    var p := ParseOne(conv, data);
    var w := p.w;
    HeaderBack(data, w);
    assert data == data[..OVERHEAD] + data[OVERHEAD..];
    assert data[OVERHEAD..] == w.data + p.rest;
  }

  lemma {:induction false} HeaderBack(data: Bytes, w: Wire)
    requires |data| >= OVERHEAD && w.conv == FromLe32(data, 0) && w.cmd == data[4] && w.frg == data[5]
    requires w.wnd == FromLe16(data, 6) && w.ts == FromLe32(data, 8) && w.sn == FromLe32(data, 12)
    requires w.una == FromLe32(data, 16) && |w.data| == FromLe32(data, 20)
    ensures Header(w) == data[..OVERHEAD]
  {
    HeaderLayout(w);
    FieldBack(data, 0);
    ShortBack(data, 6);
    FieldBack(data, 8);
    FieldBack(data, 12);
    FieldBack(data, 16);
    FieldBack(data, 20);
    assert data[..OVERHEAD] == data[0..4] + [data[4], data[5]] + data[6..8] + data[8..12] + data[12..16] + data[16..20]
                               + data[20..24];
  }

  lemma {:induction false} ParsedStops(conv: u32, data: Bytes)
    ensures var p := ParseOne(conv, data);
            && (p.Done? ==> Stops(conv, data, 0)) && (p.Bad? ==> Stops(conv, data, p.code))
            && (forall code :: Stops(conv, data, code) ==> p == if code == 0 then Done else Bad(code))
  {
    if |data| >= OVERHEAD { ConvField(conv, data); }
  }

  // A datagram is the encoding of the segments that Input gets out of it, followed by data that
  // stops with its code (DecodeSays); and there is no other way to read it.
  lemma {:induction false} DecodeExact(conv: u32, data: Bytes, ws: seq<Wire>, rest: Bytes, code: int)
    requires data == EncodeAll(ws) + rest && (forall w <- ws :: KcpWire.Sendable(conv, w)) && Stops(conv, rest, code)
    ensures Decode(conv, data) == (ws, code)
    decreases |ws|
  {
    if ws == [] {
      assert data == rest;
      ParsedStops(conv, rest);
    } else {
      var more := EncodeAll(ws[1..]) + rest;
      assert data == Encode(ws[0]) + more;
      ParseEncoded(conv, ws[0], more);
      DecodeExact(conv, more, ws[1..], rest, code);
      assert ws == [ws[0]] + ws[1..];
    }
  }

  lemma {:induction false} DecodeSays(conv: u32, data: Bytes) returns (rest: Bytes)
    ensures var (ws, code) := Decode(conv, data);
            data == EncodeAll(ws) + rest && (forall w <- ws :: KcpWire.Sendable(conv, w)) && Stops(conv, rest, code)
    decreases |data|
  {
    ParsedStops(conv, data);
    var p := ParseOne(conv, data);
    if p.Got? {
      ParsedBack(conv, data);
      rest := DecodeSays(conv, p.rest);
      var ws := Decode(conv, p.rest).0;
      assert ([p.w] + ws)[1..] == ws;
      assert EncodeAll([p.w] + ws) == Encode(p.w) + EncodeAll(ws);
    } else {
      rest := data;
    }
  }

  // The code of Input; with an error nothing is answered.
  lemma {:induction false} InputCode(ep: Endpoint, data: Bytes, regular: bool, ackNoDelay: bool, clock: Clock)
    requires ep.cfg.Valid()
    ensures var (ep1, code, emits) := Input(ep, data, regular, ackNoDelay, clock);
            && code == (if |data| < OVERHEAD then -1 else Decode(ep.cfg.conv, data).1)
            && (code != 0 ==> emits == []) && (|data| < OVERHEAD ==> ep1 == ep)
  {
    var rest := DecodeSays(ep.cfg.conv, data);
  }

  // ---- Send -----------------------------------------------------------------------------

  // Room left in the last queued segment, which only stream mode uses.
  function LastRoom(ep: Endpoint, len: nat): nat
    requires ep.cfg.Valid()
  {
    if !ep.cfg.stream || ep.snd.queue == [] then 0
    else Min(len, Max(0, ep.cfg.Mss() - |ep.snd.queue[|ep.snd.queue| - 1].data|))
  }

  lemma {:induction false} TooMany(len: nat, mss: nat)
    requires mss > 0
    ensures Count(len, mss) > 255 <==> len > 255 * mss
  {
    if len > mss {
      var q, r := (len + mss - 1) / mss, (len + mss - 1) % mss;
      assert len + mss - 1 == q * mss + r;
      if q > 255 { AtLeast(q - 255, mss); } else { AtLeast(256 - q, mss); }
      assert (q - 255) * mss == q * mss - 255 * mss && (256 - q) * mss == 256 * mss - q * mss;
    }
  }

  // Send refuses an empty message with -1 and one that needs more than 255 further segments with
  // -2, and nothing else; refused in message mode, it changes nothing.
  lemma {:induction false} SendCode(ep: Endpoint, msg: Payload)
    requires ep.cfg.Valid()
    ensures var (ep1, code) := KcpSpec.Send(ep, msg); var left := |msg| - LastRoom(ep, |msg|);
            && (code == -1 <==> msg == []) && (code == -2 <==> left > 255 * ep.cfg.Mss()) && -2 <= code <= 0
            && (code == -1 || (code == -2 && !ep.cfg.stream) ==> ep1 == ep)
            && ep1.rcv == ep.rcv && ep1.ctl == ep.ctl && ep1.snd == ep.snd.(queue := ep1.snd.queue)
  {
    TooMany(|msg| - LastRoom(ep, |msg|), ep.cfg.Mss());
  }

  // Pieces are as large as they can be, but for the last, and none is empty.
  ghost predicate CutFull(f: seq<Segment>, mss: nat) {
    && f != [] && (forall i :: 0 <= i < |f| - 1 ==> |f[i].data| == mss)
    && 0 < |f[|f| - 1].data| <= mss
  }

  lemma {:induction false} PiecesFull(msg: Payload, mss: nat)
    requires 0 < mss && msg != []
    ensures CutFull(Fragments(msg, mss), mss) && CutFull(Chunks(msg, mss), mss)
    decreases |msg|
  {
    if |msg| > mss {
      PiecesFull(msg[mss..], mss);
      AfterFirst(Fragments(msg, mss), Fragments(msg[mss..], mss), mss);
      AfterFirst(Chunks(msg, mss), Chunks(msg[mss..], mss), mss);
    }
  }

  lemma {:induction false} AfterFirst(f: seq<Segment>, g: seq<Segment>, mss: nat)
    requires CutFull(g, mss) && |f| == |g| + 1 && f[1..] == g && |f[0].data| == mss
    ensures CutFull(f, mss)
  {
    forall i | 0 <= i < |f| - 1 ensures |f[i].data| == mss { if i > 0 { assert f[i] == g[i - 1]; } }
    assert f[|f| - 1] == g[|g| - 1];
  }

  // ---- Recv -------------------------------------------------------------------------------

  // The first n pieces of the queue are numbered down to zero: a whole message.
  ghost predicate WholeFront(q: seq<Segment>, n: nat) {
    0 < n <= |q| && forall i :: 0 <= i < n ==> q[i].frg == n - 1 - i
  }

  // The pieces of the first message, as far as they are there, count down.
  ghost predicate CountsDown(q: seq<Segment>) {
    q == [] || forall i :: 0 <= i < |q| && i <= q[0].frg ==> q[i].frg == q[0].frg - i
  }

  // A whole message is exactly what is taken to be ready, unless the first fragment is number 255:
  // the count of fragments is then computed as zero.
  lemma {:induction false} ReadyExact(q: seq<Segment>)
    requires CountsDown(q)
    ensures (Ready(q) <==> exists n :: WholeFront(q, n)) <==> (q == [] || q[0].frg != 255 || |q| >= 256)
    ensures forall n :: WholeFront(q, n) ==> n == q[0].frg + 1 && MessageEnd(q) == n
  {
    if q != [] && |q| > q[0].frg { assert WholeFront(q, q[0].frg + 1); }
    forall n | WholeFront(q, n) ensures n == q[0].frg + 1 && MessageEnd(q) == n {
      MessageEndAt(q, n);
    }
  }

  // The number Recv returns: the length of the message it returns, which fits the buffer, or an
  // error with nothing changed.
  lemma {:induction false} RecvCode(ep: Endpoint, cap: nat)
    ensures var (ep1, n, msg) := KcpSpec.Recv(ep, cap);
            && (n >= 0 ==> n == |msg| <= cap) && (n < 0 ==> ep1 == ep && msg == [] && (n == -1 || n == -2))
            && ep1.snd == ep.snd && ep1.cfg == ep.cfg && ep1.rcv.acks == ep.rcv.acks
            && ep1.ctl == ep.ctl.(askTell := ep1.ctl.askTell)
  {
    MoveReadyAcks(ep.rcv.(queue := ep.rcv.queue[MessageEnd(ep.rcv.queue)..]), ep.cfg.rcv_wnd);
  }

  lemma {:induction false} MoveKeepsFront(r: Receiver, wnd: u32)
    ensures r.queue <= MoveReady(r, wnd).queue
    decreases |r.buf|
  {
    if r.nxt in r.buf && |r.queue| < wnd {
      MoveKeepsFront(Receiver(r.buf - {r.nxt}, r.queue + [r.buf[r.nxt]], Add32(r.nxt, 1), r.acks), wnd);
    }
  }

  // -1 exactly if no whole message is waiting, -2 exactly if there is one that does not fit; else
  // the message is what the pieces hold, and exactly these leave the queue.
  lemma {:induction false} RecvExact(ep: Endpoint, cap: nat, k: nat)
    requires var q := ep.rcv.queue; CountsDown(q) && (q != [] ==> q[0].frg < 255)
    ensures var (ep1, n, msg) := KcpSpec.Recv(ep, cap); var q := ep.rcv.queue;
            && (n == -1 <==> forall i :: !WholeFront(q, i))
            && (WholeFront(q, k) ==>
                  && (n == -2 <==> |Join(q[..k])| > cap)
                  && (n >= 0 ==> msg == Join(q[..k]) && q[k..] <= ep1.rcv.queue))
  {
    var q := ep.rcv.queue;
    ReadyExact(q);
    MoveKeepsFront(ep.rcv.(queue := q[MessageEnd(q)..]), ep.cfg.rcv_wnd);
  }

  // ---- Recv between two endpoints --------------------------------------------------------------

  lemma {:induction false} QueueCountsDown(p: Peer, q: Peer)
    requires p.ep.cfg.Valid() && RecvSide(q, p) && Handed(p, q.delivered, Returned(q))
    ensures var queue := q.ep.rcv.queue; CountsDown(queue) && (queue != [] ==> queue[0].frg < 255)
  {
    var queue, lo := q.ep.rcv.queue, Returned(q);
    if queue != [] {
      assert Contents(queue)[0] == p.sent[lo] == LogOf(p)[lo];
      if !p.ep.cfg.stream {
        QueueAtBoundary(p, q);
        FrontCountsDown(queue, p.accepted[|q.delivered|], p.ep.cfg.Mss());
      }
    }
  }

  lemma {:induction false} FrontCountsDown(q: seq<Segment>, m: Payload, mss: nat)
    requires mss > 0 && Acceptable(m, mss) && q != []
    requires var f := Contents(Fragments(m, mss)); Contents(q) <= f || f <= Contents(q)
    ensures CountsDown(q) && q[0].frg < 255
  {
    var f := Fragments(m, mss);
    FragmentsShape(m, mss);
    assert Contents(q)[0] == Contents(f)[0];
    forall i | 0 <= i < |q| && i <= q[0].frg ensures q[i].frg == q[0].frg - i {
      assert Contents(q)[i] == Contents(f)[i];
    }
  }

  // What Recv returns at q, which gets messages from p.
  ghost predicate Returns(p: Peer, q: Peer, cap: nat, k: nat) {
    var (ep1, n, msg) := KcpSpec.Recv(q.ep, cap); var queue := q.ep.rcv.queue;
    && (n == -1 <==> forall i :: !WholeFront(queue, i))
    && (WholeFront(queue, k) ==> (n == -2 <==> |Join(queue[..k])| > cap) && (n >= 0 ==> n == |Join(queue[..k])|))
    && (n >= 0 ==> n == |msg| <= cap)
    && (n >= 0 && !p.ep.cfg.stream ==> |q.delivered| < |p.accepted| && msg == p.accepted[|q.delivered|])
  }

  lemma {:induction false} ReturnsExactly(p: Peer, q: Peer, cap: nat, k: nat)
    requires p.ep.cfg.Valid() && RecvSide(q, p) && Handed(p, q.delivered, Returned(q))
    ensures Returns(p, q, cap, k)
  {
    QueueCountsDown(p, q);
    RecvExact(q.ep, cap, k);
    RecvCode(q.ep, cap);
    if Ready(q.ep.rcv.queue) && !p.ep.cfg.stream { NextMessage(p, q); }
  }

  // In every reachable state of the pair Recv returns -1 exactly if no whole message is waiting,
  // -2 exactly if there is one larger than the buffer, and otherwise its length; in message mode
  // that message is the next that the other side accepted.
  lemma {:induction false} RecvInRuns(ca: Config, cb: Config, acts: seq<Action>, cap: nat, k: nat)
    requires Compatible(ca, cb) && IsRun(Init(ca, cb), acts)
    ensures var s := After(Init(ca, cb), acts); Returns(s.a, s.b, cap, k) && Returns(s.b, s.a, cap, k)
  {
    InitInv(ca, cb);
    RunKeepsInv(Init(ca, cb), acts);
    var s := After(Init(ca, cb), acts);
    ReturnsExactly(s.a, s.b, cap, k);
    ReturnsExactly(s.b, s.a, cap, k);
  }

  lemma {:induction false} NextMessage(p: Peer, q: Peer)
    requires p.ep.cfg.Valid() && RecvSide(q, p) && HandedWhole(p, q.delivered, Returned(q)) && Ready(q.ep.rcv.queue)
    ensures |q.delivered| < |p.accepted|
    ensures Join(q.ep.rcv.queue[..MessageEnd(q.ep.rcv.queue)]) == p.accepted[|q.delivered|]
  {
    QueueAtBoundary(p, q);
    QueueFront(q.ep.rcv.queue, p.accepted[|q.delivered|], p.ep.cfg.Mss());
  }
}
