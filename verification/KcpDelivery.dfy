/** Safety of the pair over every run: reliable in-order delivery with message boundaries,
    and no release of a payload that the other side does not have.
 */
module KcpDelivery {
  import opened Words
  import opened KcpWire
  import opened KcpSpec
  import opened KcpInvariant
  import opened KcpFlow
  import opened KcpPair
  import opened KcpHanded

  // ---- one incoming segment ---------------------------------------------------

  // Numbers that arrived at q were numbered by p.
  lemma {:induction false} ArrivedBelow(p: Peer, q: Peer, i: nat)
    requires Linked(p, q) && ArrivedAt(q, i)
    ensures i < p.nxt
  {
  }

  lemma {:induction false} SegmentSendSide(p: Peer, q: Peer, w: Wire, st: Stamp, regular: bool)
    requires p.ep.cfg.Valid() && SenderInv(p.ep.cfg, p.ep.snd) && SendSide(p, q)
    requires w.una == Wrap(st.una) && st.una <= q.told <= p.nxt
    requires w.cmd == CMD_ACK ==> w.sn == Wrap(st.sn) && ArrivedAt(q, st.sn) && st.sn < p.nxt
    requires FreshSegment(p, q, w, st)
    ensures SendSide(PeerSegment(p, w, st, regular), q)
  {
    TakeAckFlow(p.ep.cfg, p.ep.snd, p.una, p.nxt, LogOf(p), w, st.una, st.sn, ArrivedSet(q));
    AdvanceTo(p.una, Max(p.una, st.una));
  }

  lemma {:induction false} SegmentRecvSide(p: Peer, q: Peer, w: Wire, st: Stamp, regular: bool)
    requires Linked(p, q) && SegmentGenuine(q, w, st) && FreshSegment(p, q, w, st)
    ensures RecvSide(PeerSegment(p, w, st, regular), q)
    ensures var p1 := PeerSegment(p, w, st, regular);
            && p.rnxt <= p1.rnxt && Returned(p1) == Returned(p)
            && forall i :: ArrivedAt(p, i) ==> ArrivedAt(p1, i)
  {
    var wnd := p.ep.cfg.rcv_wnd;
    if w.cmd == CMD_PUSH {
      var j := TakePushFlow(p.ep.rcv, p.rnxt, wnd, q.sent, q.nxt, w, st.sn);
      TakePushKeeps(p.ep.rcv, wnd, w);
      AdvanceTo(p.rnxt, j);
    } else {
      AdvanceTo(p.rnxt, p.rnxt);
    }
  }

  lemma {:induction false} SegmentStep(p: Peer, q: Peer, w: Wire, st: Stamp, regular: bool)
    requires Linked(p, q) && SegmentGenuine(q, w, st) && FreshSegment(p, q, w, st)
    ensures var p1 := PeerSegment(p, w, st, regular);
            Linked(p1, q) && Calm(p, p1) && p1.nxt == p.nxt
  {
    var p1 := PeerSegment(p, w, st, regular);
    InputSegmentKeeps(p.ep, w, regular);
    if w.cmd == CMD_ACK { ArrivedBelow(p, q, st.sn); }
    SegmentSendSide(p, q, w, st, regular);
    SegmentRecvSide(p, q, w, st, regular);
    OtherSide(p, p1, q);
  }

  lemma {:induction false} AllSegments(p: Peer, q: Peer, ws: seq<Wire>, stamps: seq<Stamp>, regular: bool)
    requires Linked(p, q) && |ws| == |stamps|
    requires forall i :: 0 <= i < |ws| ==> SegmentGenuine(q, ws[i], stamps[i]) && FreshSegment(p, q, ws[i], stamps[i])
    ensures var p1 := PeerAll(p, ws, stamps, regular); Linked(p1, q) && Calm(p, p1)
    decreases ws
  {
    if ws != [] {
      SegmentStep(p, q, ws[0], stamps[0], regular);
      var p1 := PeerSegment(p, ws[0], stamps[0], regular);
      forall i | 0 <= i < |ws[1..]|
        ensures SegmentGenuine(q, ws[1..][i], stamps[1..][i]) && FreshSegment(p1, q, ws[1..][i], stamps[1..][i])
      {
        assert SegmentGenuine(q, ws[i + 1], stamps[i + 1]) && FreshSegment(p, q, ws[i + 1], stamps[i + 1]);
      }
      AllSegments(p1, q, ws[1..], stamps[1..], regular);
      CalmTransitive(p, p1, PeerAll(p, ws, stamps, regular));
    }
  }

  lemma {:induction false} CalmTransitive(p: Peer, p1: Peer, p2: Peer)
    requires Calm(p, p1) && Calm(p1, p2)
    ensures Calm(p, p2)
  {
    assert p.sent == p1.sent[..|p.sent|] == p2.sent[..|p.sent|];
  }

  // ---- flush ------------------------------------------------------------------

  lemma {:induction false} FlushNumbers(p: Peer, full: bool, clock: Clock)
    requires p.ep.cfg.Valid() && p.ep.snd.nxt == Wrap(p.nxt)
    ensures FlushStep(p, full, clock).0.nxt
         == p.nxt + Slots(p.ep.snd, EffectiveWindow(p.ep.cfg, Probe(p.ep.ctl, clock.probe)))
  {
    var n := Slots(p.ep.snd, EffectiveWindow(p.ep.cfg, Probe(p.ep.ctl, clock.probe)));
    WrapAdd(p.nxt, n);
    AdvanceTo(p.nxt, p.nxt + n);
  }

  lemma {:induction false} SplitLog(sent: seq<Piece>, q: seq<Segment>, n: nat)
    requires n <= |q|
    ensures var sent1 := sent + Contents(q[..n]);
            && sent1 + Contents(q[n..]) == sent + Contents(q)
            && sent1 == (sent + Contents(q))[..|sent| + n] && sent <= sent1
  {
    assert Contents(q) == Contents(q[..n]) + Contents(q[n..]);
  }

  // A flush numbers the pieces at the front of the queue.
  lemma {:induction false} FlushLog(p: Peer, full: bool, clock: Clock)
    requires p.ep.cfg.Valid() && p.ep.snd.nxt == Wrap(p.nxt) && |p.sent| == p.nxt
    ensures var p1 := FlushStep(p, full, clock).0;
            LogOf(p1) == LogOf(p) && p1.sent == LogOf(p)[..p1.nxt] && p.sent <= p1.sent
  {
    FlushNumbers(p, full, clock);
    var n, q := Slots(p.ep.snd, EffectiveWindow(p.ep.cfg, Probe(p.ep.ctl, clock.probe))), p.ep.snd.queue;
    SplitLog(p.sent, q, n);
    assert FlushStep(p, full, clock).0.ep.snd.queue == q[n..];
  }

  lemma {:induction false} FlushSendSide(p: Peer, q: Peer, full: bool, clock: Clock)
    requires p.ep.cfg.Valid() && EndpointInv(p.ep) && SendSide(p, q)
    ensures SendSide(FlushStep(p, full, clock).0, q)
  {
    FlushNumbers(p, full, clock);
    FlushLog(p, full, clock);
    PassFlow(p.ep, p.una, p.nxt, LogOf(p), full, Probe(p.ep.ctl, clock.probe), clock.now, ArrivedSet(q));
  }

  lemma {:induction false} FlushLinked(p: Peer, q: Peer, full: bool, clock: Clock)
    requires Linked(p, q)
    ensures var p1 := FlushStep(p, full, clock).0; Linked(p1, q) && Calm(p, p1)
  {
    var p1 := FlushStep(p, full, clock).0;
    FlushNumbers(p, full, clock);
    FlushLog(p, full, clock);
    FlushKeeps(p.ep, full, clock.probe, clock.now);
    FlushSendSide(p, q, full, clock);
    OtherSide(p, p1, q);
  }

  lemma {:induction false} FindAckFinds(nums: seq<nat>, j: nat)
    requires j < |nums|
    ensures FindAck(nums, Wrap(nums[j])) in nums && Wrap(FindAck(nums, Wrap(nums[j]))) == Wrap(nums[j])
  {
    if Wrap(nums[0]) != Wrap(nums[j]) {
      assert nums[1..][j - 1] == nums[j];
      FindAckFinds(nums[1..], j - 1);
    }
  }

  lemma {:induction false} AckWiresGenuine(p: Peer, q: Peer, k: nat)
    requires Linked(p, q) && k <= |p.ep.rcv.acks|
    ensures forall w <- AckWires(p.ep, k) :: w.cmd == CMD_ACK && SegmentGenuine(p.(told := p.rnxt), w, StampOf(p, w))
  {
    if k > 0 {
      AckWiresGenuine(p, q, k - 1);
      FindAckFinds(p.ackNums, k - 1);
      var w := AckWire(p.ep, p.ep.rcv.acks[k - 1]);
      assert p.ep.rcv.acks[k - 1].sn == Wrap(p.ackNums[k - 1]);
      assert SegmentGenuine(p.(told := p.rnxt), w, StampOf(p, w));
    }
  }

  lemma {:induction false} PassEmitsGenuine(p: Peer, q: Peer, full: bool, clock: Clock, w: Wire)
    requires Linked(p, q) && w in Pass(p.ep, full, Probe(p.ep.ctl, clock.probe), clock.now).emits
    ensures SegmentGenuine(FlushStep(p, full, clock).0, w, StampOf(p, w))
  {
    FlushNumbers(p, full, clock);
    FlushLog(p, full, clock);
    var k := PassEmits(p.ep, p.una, p.nxt, LogOf(p), full, Probe(p.ep.ctl, clock.probe), clock.now, w, ArrivedSet(q));
    AdvanceTo(p.una, p.una + k);
  }

  lemma {:induction false} FlushEmitsGenuine(p: Peer, q: Peer, full: bool, clock: Clock, w: Wire)
    requires Linked(p, q) && w in KcpSpec.Flush(p.ep, full, clock.probe, clock.now).emits
    ensures SegmentGenuine(FlushStep(p, full, clock).0, w, StampOf(p, w))
  {
    if w in Pass(p.ep, full, Probe(p.ep.ctl, clock.probe), clock.now).emits {
      PassEmitsGenuine(p, q, full, clock, w);
    } else {
      AckWiresGenuine(p, q, |p.ep.rcv.acks|);
    }
  }

  lemma {:induction false} FlushGenuine(p: Peer, q: Peer, full: bool, clock: Clock)
    requires Linked(p, q)
    ensures var (p1, out) := FlushStep(p, full, clock); forall pkt <- out :: Genuine(p1, pkt)
  {
    var f := KcpSpec.Flush(p.ep, full, clock.probe, clock.now);
    FlushFits(p.ep, full, clock.probe, clock.now);
    forall w | w in f.emits ensures SegmentGenuine(FlushStep(p, full, clock).0, w, StampOf(p, w)) {
      FlushEmitsGenuine(p, q, full, clock, w);
    }
    PackGenuine(p, FlushStep(p, full, clock).0, f.emits);
  }

  // If every emitted segment is genuine, so is every datagram they are packed into.
  lemma {:induction false} PackGenuine(p: Peer, p1: Peer, ws: seq<Wire>)
    requires p.ep.cfg.Valid() && p1.ep.cfg == p.ep.cfg
    requires forall w <- ws :: Fits(p.ep.cfg.conv, p.ep.cfg.mtu, w)
    requires forall w <- ws :: SegmentGenuine(p1, w, StampOf(p, w))
    ensures forall pkt <- Packets(p, ws) :: Genuine(p1, pkt)
  {
    var conv, out := p.ep.cfg.conv, Pack(ws, p.ep.cfg.mtu);
    PackRoundTrip(conv, p.ep.cfg.mtu, ws);
    forall d | d in out ensures Genuine(p1, PacketOf(p, d)) {
      assert Whole(conv, d);
      var ds := Decode(conv, d).0;
      forall i | 0 <= i < |ds| ensures SegmentGenuine(p1, ds[i], PacketOf(p, d).stamps[i]) {
        InRun(conv, out, d, ds[i]);
      }
    }
  }

  // ---- Send and Recv ----------------------------------------------------------

  lemma {:induction false} SendLinked(p: Peer, q: Peer, msg: Payload)
    requires Linked(p, q)
    ensures Linked(SendStep(p, msg), q) && Grows(p, SendStep(p, msg))
  {
    var p1 := SendStep(p, msg);
    SendKeeps(p.ep, msg);
    assert LogOf(p1)[p.nxt..] == Contents(p1.ep.snd.queue);
    assert SendSide(p1, q);
    OtherSide(p, p1, q);
  }

  // Taking n segments off the queue and moving up what is ready.
  lemma {:induction false} PopFlow(r: Receiver, n: nat, rnxt: nat, wnd: u32, log: seq<Piece>, limit: nat)
    returns (j: nat)
    requires 0 < wnd <= HALF && ReceiverFlow(r, rnxt, wnd, log, limit) && ReceiverInv(wnd, r) && n <= |r.queue|
    ensures var r2 := MoveReady(r.(queue := r.queue[n..]), wnd);
            && rnxt <= j && |r2.queue| == |r.queue| - n + (j - rnxt)
            && ReceiverFlow(r2, j, wnd, log, limit) && r2.acks == r.acks
            && (forall i :: Arrived(r, rnxt, wnd, i) ==> Arrived(r2, j, wnd, i))
  {
    var r1 := r.(queue := r.queue[n..]);
    assert Contents(r.queue[n..]) == Contents(r.queue)[n..];
    PopKeeps(r, n, wnd);
    j := MoveReadyFlow(r1, rnxt, wnd, log, limit);
    assert forall i :: Arrived(r, rnxt, wnd, i) ==> Arrived(r1, rnxt, wnd, i);
  }

  // A Recv at q that returns something.
  lemma {:induction false} RecvRecvSide(p: Peer, q: Peer, cap: nat)
    requires Linked(q, p)
    ensures var q1 := RecvStep(q, cap);
            RecvSide(q1, p) && q.rnxt <= q1.rnxt && forall i :: ArrivedAt(q, i) ==> ArrivedAt(q1, i)
    ensures var q1, n := RecvStep(q, cap), MessageEnd(q.ep.rcv.queue);
            if Ready(q.ep.rcv.queue) && PeekSize(q.ep.rcv.queue) <= cap
            then Returned(q1) == Returned(q) + n && q1.delivered == q.delivered + [Join(q.ep.rcv.queue[..n])]
            else q1 == q
  {
    AdvanceTo(q.rnxt, q.rnxt);
    if Ready(q.ep.rcv.queue) && PeekSize(q.ep.rcv.queue) <= cap {
      var j := PopFlow(q.ep.rcv, MessageEnd(q.ep.rcv.queue), q.rnxt, q.ep.cfg.rcv_wnd, p.sent, p.nxt);
      AdvanceTo(q.rnxt, j);
    }
  }

  lemma {:induction false} RecvLinked(p: Peer, q: Peer, cap: nat)
    requires Linked(p, q)
    ensures Linked(RecvStep(p, cap), q) && Grows(p, RecvStep(p, cap))
  {
    RecvKeeps(p.ep, cap);
    RecvRecvSide(q, p, cap);
    OtherSide(p, RecvStep(p, cap), q);
  }

  lemma {:induction false} RecvSame(p: Peer, cap: nat)
    ensures var p1 := RecvStep(p, cap);
            && p1.ep.cfg == p.ep.cfg && p1.ep.snd == p.ep.snd
            && p1.sent == p.sent && p1.accepted == p.accepted && p1.taken == p.taken
  {
  }

  // q returns n more pieces as one message.
  lemma {:induction false} OneMore(p: Peer, q: Peer, q1: Peer, n: nat)
    requires p.ep.cfg.Valid() && RecvSide(q, p) && Handed(p, q.delivered, Returned(q)) && Ready(q.ep.rcv.queue)
    requires n == MessageEnd(q.ep.rcv.queue) && Returned(q1) == Returned(q) + n
    requires q1.delivered == q.delivered + [Join(q.ep.rcv.queue[..n])]
    ensures Handed(p, q1.delivered, Returned(q1))
  {
    RecvHanded(p, q, n);
  }

  lemma {:induction false} RecvGives(p: Peer, q: Peer, cap: nat)
    requires Linked(p, q) && Handed(p, q.delivered, Returned(q)) && Handed(q, p.delivered, Returned(p))
    ensures var p1 := RecvStep(p, cap);
            p1.ep.cfg == p.ep.cfg && Handed(p1, q.delivered, Returned(q)) && Handed(q, p1.delivered, Returned(p1))
  {
    RecvRecvSide(q, p, cap);
    RecvSame(p, cap);
    var p1 := RecvStep(p, cap);
    if Ready(p.ep.rcv.queue) && PeekSize(p.ep.rcv.queue) <= cap {
      OneMore(q, p, p1, MessageEnd(p.ep.rcv.queue));
    }
    SameHanded(p, p1, q.delivered, Returned(q));
  }

  lemma {:induction false} SameHanded(p: Peer, p1: Peer, delivered: seq<Bytes>, at: int)
    requires p.ep.cfg.Valid() && Handed(p, delivered, at)
    requires p1.ep.cfg == p.ep.cfg && p1.ep.snd == p.ep.snd && p1.sent == p.sent && p1.accepted == p.accepted
    requires p1.taken == p.taken
    ensures Handed(p1, delivered, at)
  {
  }

  // ---- Deliver ----------------------------------------------------------------

  lemma {:induction false} SettleLinked(p: Peer, q: Peer, before: u32, acks: seq<u32>, regular: bool, current: u32)
    requires Linked(p, q)
    ensures var p1 := p.(ep := Settle(p.ep, before, acks, regular, current)); Linked(p1, q) && Calm(p, p1)
  {
    SettleKeeps(p.ep, before, acks, regular, current);
    OtherSide(p, p.(ep := Settle(p.ep, before, acks, regular, current)), q);
  }

  lemma {:induction false} NoPackets(p: Peer)
    ensures Packets(p, []) == {}
  {
    assert Pack([], p.ep.cfg.mtu) == [];
  }

  function RespondStep(p: Peer, urgent: bool, ackNoDelay: bool, clock: Clock): (Peer, set<Packet>)
    requires p.ep.cfg.Valid()
  {
    var (ep, emits) := Respond(p.ep, urgent, ackNoDelay, clock);
    (FlushPeer(p, ep), Packets(p, emits))
  }

  lemma {:induction false} NothingFlushed(p: Peer, q: Peer)
    requires Linked(p, q)
    ensures var p1 := FlushPeer(p, p.ep);
            p1 == p.(told := p1.told) && p.told <= p1.told <= p.rnxt && Linked(p1, q) && Calm(p, p1)
  {
    AdvanceTo(p.nxt, p.nxt);
    assert p.sent + Contents(p.ep.snd.queue[..0]) == p.sent;
  }

  lemma {:induction false} RespondLinked(p: Peer, q: Peer, urgent: bool, ackNoDelay: bool, clock: Clock)
    requires Linked(p, q)
    ensures var (p1, out) := RespondStep(p, urgent, ackNoDelay, clock);
            Linked(p1, q) && Calm(p, p1) && forall pkt <- out :: Genuine(p1, pkt)
  {
    if FlushDue(p.ep, urgent, ackNoDelay) {
      FlushLinked(p, q, urgent, clock);
      FlushGenuine(p, q, urgent, clock);
    } else {
      NoPackets(p);
      NothingFlushed(p, q);
    }
  }

  // Stamps depend only on the counters.
  lemma {:induction false} PacketsAgree(p: Peer, c: Control, ep: Endpoint, ws: seq<Wire>)
    ensures var p1 := p.(ep := p.ep.(ctl := c));
            Packets(p1, ws) == Packets(p, ws) && FlushPeer(p1, ep) == FlushPeer(p, ep)
  {
    var p1 := p.(ep := p.ep.(ctl := c));
    forall d | d in Pack(ws, p.ep.cfg.mtu) ensures PacketOf(p1, d) == PacketOf(p, d) {
      var ds := Decode(p.ep.cfg.conv, d).0;
      assert forall i :: 0 <= i < |ds| ==> StampOf(p1, ds[i]) == StampOf(p, ds[i]);
      assert PacketOf(p1, d).stamps == PacketOf(p, d).stamps;
    }
  }

  // Input of a datagram that parses: all segments, settling, response.
  lemma {:induction false} DeliverSplits(p: Peer, pkt: Packet, regular: bool, ackNoDelay: bool, clock: Clock)
    requires p.ep.cfg.Valid() && |pkt.bytes| >= OVERHEAD
    requires var (ws, code) := Decode(p.ep.cfg.conv, pkt.bytes); code == 0 && |pkt.stamps| == |ws|
    ensures var ws := Decode(p.ep.cfg.conv, pkt.bytes).0;
            var p1 := PeerAll(p, ws, pkt.stamps, regular);
            var p2 := p1.(ep := Settle(p1.ep, p.ep.snd.una, AckTimes(ws), regular, clock.rtt));
            DeliverStep(p, pkt, regular, ackNoDelay, clock)
            == RespondStep(p2, AnyUrgent(p.ep, ws, regular), ackNoDelay, clock)
  {
    var ws := Decode(p.ep.cfg.conv, pkt.bytes).0;
    var p1 := PeerAll(p, ws, pkt.stamps, regular);
    var ep2 := Settle(p1.ep, p.ep.snd.una, AckTimes(ws), regular, clock.rtt);
    var (ep3, emits) := Respond(ep2, AnyUrgent(p.ep, ws, regular), ackNoDelay, clock);
    InputParts(p.ep, pkt.bytes, regular, ackNoDelay, clock);
    PacketsAgree(p1, ep2.ctl, ep3, emits);
    assert ep2 == p1.ep.(ctl := ep2.ctl);
  }

  lemma {:induction false} InputParts(ep: Endpoint, data: Bytes, regular: bool, ackNoDelay: bool, clock: Clock)
    requires ep.cfg.Valid() && |data| >= OVERHEAD && Decode(ep.cfg.conv, data).1 == 0
    ensures var ws := Decode(ep.cfg.conv, data).0;
            var ep2 := Settle(InputAll(ep, ws, regular), ep.snd.una, AckTimes(ws), regular, clock.rtt);
            var r := Respond(ep2, AnyUrgent(ep, ws, regular), ackNoDelay, clock);
            Input(ep, data, regular, ackNoDelay, clock) == (r.0, 0, r.1)
  {
  }

  lemma {:induction false} DeliverLinked(p: Peer, q: Peer, pkt: Packet, regular: bool, ackNoDelay: bool, clock: Clock)
    requires Linked(p, q) && Genuine(q, pkt) && Fresh(p, q, pkt)
    ensures var (p1, out) := DeliverStep(p, pkt, regular, ackNoDelay, clock);
            Linked(p1, q) && Calm(p, p1) && forall pkt <- out :: Genuine(p1, pkt)
  {
    var ws := Decode(p.ep.cfg.conv, pkt.bytes).0;
    if |pkt.bytes| < OVERHEAD {
      assert ws == [];
      NoPackets(p);
      NothingFlushed(p, q);
    } else {
      AllSegments(p, q, ws, pkt.stamps, regular);
      var p1 := PeerAll(p, ws, pkt.stamps, regular);
      var p2 := p1.(ep := Settle(p1.ep, p.ep.snd.una, AckTimes(ws), regular, clock.rtt));
      SettleLinked(p1, q, p.ep.snd.una, AckTimes(ws), regular, clock.rtt);
      RespondLinked(p2, q, AnyUrgent(p.ep, ws, regular), ackNoDelay, clock);
      var p3 := RespondStep(p2, AnyUrgent(p.ep, ws, regular), ackNoDelay, clock).0;
      CalmTransitive(p, p1, p2);
      CalmTransitive(p, p2, p3);
      DeliverSplits(p, pkt, regular, ackNoDelay, clock);
    }
  }

  // ---- runs -------------------------------------------------------------------

  predicate SameConfigs(s: Pair, s1: Pair) {
    s1.a.ep.cfg == s.a.ep.cfg && s1.b.ep.cfg == s.b.ep.cfg
  }

  lemma {:induction false} CalmStep(s: Pair, step: Step)
    requires PairInv(s) && Enabled(s, step) && (step.Flush? || step.Deliver?)
    ensures var s1 := StepAtA(s, step);
            && Linked(s1.a, s.b) && Calm(s.a, s1.a)
            && (forall pkt <- s1.toB :: pkt in s.toB || Genuine(s1.a, pkt)) && s1.b == s.b && s1.toA == s.toA
  {
    match step {
      case Flush(full, clock) =>
        FlushLinked(s.a, s.b, full, clock);
        FlushGenuine(s.a, s.b, full, clock);
      case Deliver(pkt, regular, ackNoDelay, clock) =>
        DeliverLinked(s.a, s.b, pkt, regular, ackNoDelay, clock);
    }
  }

  // The endpoint at a moved on from s to s1.
  ghost predicate Moved(s: Pair, s1: Pair) {
    && Linked(s1.a, s.b) && Grows(s.a, s1.a)
    && Handed(s1.a, s.b.delivered, Returned(s.b)) && Handed(s.b, s1.a.delivered, Returned(s1.a))
    && (forall pkt <- s1.toB :: pkt in s.toB || Genuine(s1.a, pkt)) && s1.b == s.b && s1.toA == s.toA
  }

  lemma {:induction false} SendMoves(s: Pair, msg: Payload)
    requires PairInv(s)
    ensures Moved(s, s.(a := SendStep(s.a, msg)))
  {
    SendLinked(s.a, s.b, msg);
    SendHanded(s.a, msg, s.b.delivered, Returned(s.b));
  }

  lemma {:induction false} RecvMoves(s: Pair, cap: nat)
    requires PairInv(s)
    ensures Moved(s, s.(a := RecvStep(s.a, cap)))
  {
    RecvLinked(s.a, s.b, cap);
    RecvGives(s.a, s.b, cap);
  }

  lemma {:induction false} StepMoves(s: Pair, step: Step)
    requires PairInv(s) && Enabled(s, step)
    ensures Moved(s, StepAtA(s, step))
  {
    if step.Send? {
      SendMoves(s, step.msg);
    } else if step.Recv? {
      RecvMoves(s, step.cap);
    } else {
      CalmStep(s, step);
      CalmHanded(s.a, StepAtA(s, step).a, s.b.delivered, Returned(s.b));
    }
  }

  lemma {:induction false} MovedKeepsInv(s: Pair, s1: Pair)
    requires PairInv(s) && Moved(s, s1)
    ensures PairInv(s1)
  {
    forall pkt | pkt in s1.toB ensures Genuine(s1.a, pkt) {
      if pkt in s.toB { GenuineGrows(s.a, s1.a, pkt); }
    }
  }

  lemma {:induction false} StepKeepsInv(s: Pair, step: Step)
    requires PairInv(s) && Enabled(s, step)
    ensures PairInv(StepAtA(s, step)) && SameConfigs(s, StepAtA(s, step))
  {
    StepMoves(s, step);
    MovedKeepsInv(s, StepAtA(s, step));
  }

  lemma {:induction false} NextKeepsInv(s: Pair, act: Action)
    requires PairInv(s) && Timely(s, act)
    ensures PairInv(Next(s, act)) && SameConfigs(s, Next(s, act))
  {
    match act
    case AtA(step) => StepKeepsInv(s, step);
    case AtB(step) => StepKeepsInv(Swap(s), step);
  }

  lemma {:induction false} RunKeepsInv(s: Pair, acts: seq<Action>)
    requires PairInv(s) && IsRun(s, acts)
    ensures PairInv(After(s, acts)) && SameConfigs(s, After(s, acts))
    decreases acts
  {
    if acts != [] {
      NextKeepsInv(s, acts[0]);
      RunKeepsInv(Next(s, acts[0]), acts[1..]);
    }
  }

  lemma {:induction false} InitSides(ca: Config, cb: Config)
    requires Compatible(ca, cb)
    ensures SendSide(NewPeer(ca), NewPeer(cb)) && RecvSide(NewPeer(cb), NewPeer(ca))
    ensures Handed(NewPeer(ca), [], 0)
  {
    assert Contents([]) == [];
  }

  lemma {:induction false} InitInv(ca: Config, cb: Config)
    requires Compatible(ca, cb)
    ensures PairInv(Init(ca, cb))
  {
    InitKeeps(ca);
    InitKeeps(cb);
    InitSides(ca, cb);
    InitSides(cb, ca);
  }

  // End-to-end delivery: in every reachable state the messages returned by Recv on either
  // side are a prefix, with boundaries intact, of the messages accepted by Send on the other,
  // if that sends in message mode.
  lemma {:induction false} EndToEndDelivery(ca: Config, cb: Config, acts: seq<Action>)
    requires Compatible(ca, cb) && IsRun(Init(ca, cb), acts)
    ensures var s := After(Init(ca, cb), acts);
            && (!ca.stream ==> s.b.delivered <= s.a.accepted)
            && (!cb.stream ==> s.a.delivered <= s.b.accepted)
  {
    InitInv(ca, cb);
    RunKeepsInv(Init(ca, cb), acts);
  }

  lemma {:induction false} BytesReturned(p: Peer, delivered: seq<Bytes>, at: int)
    requires p.ep.cfg.Valid() && Handed(p, delivered, at)
    ensures Concat(delivered) <= p.taken
  {
    var log := LogOf(p);
    assert log[..at] == p.sent[..at] && log == log[..at] + log[at..];
    FlatAppend(log[..at], log[at..]);
  }

  // In every mode the bytes returned by Recv on either side are a prefix of the bytes taken
  // by Send on the other, those that a refused Send has taken included.
  lemma {:induction false} ByteStream(ca: Config, cb: Config, acts: seq<Action>)
    requires Compatible(ca, cb) && IsRun(Init(ca, cb), acts)
    ensures var s := After(Init(ca, cb), acts);
            Concat(s.b.delivered) <= s.a.taken && Concat(s.a.delivered) <= s.b.taken
  {
    InitInv(ca, cb);
    RunKeepsInv(Init(ca, cb), acts);
    var s := After(Init(ca, cb), acts);
    BytesReturned(s.a, s.b.delivered, Returned(s.b));
    BytesReturned(s.b, s.a.delivered, Returned(s.a));
  }

  // p has given up the payload of number i: cumulatively acknowledged, or freed in the window.
  predicate GivenUp(p: Peer, i: nat) {
    i < p.una || (i - p.una < |p.ep.snd.buf| && p.ep.snd.buf[i - p.una].acked)
  }

  lemma {:induction false} GivenUpArrived(p: Peer, q: Peer, i: nat)
    requires p.ep.cfg.Valid() && SendSide(p, q) && RecvSide(q, p) && GivenUp(p, i)
    ensures ArrivedAt(q, i)
  {
    if i >= p.una { assert p.una + (i - p.una) in ArrivedSet(q); }
  }

  // No premature release: in every reachable state whatever the sender has given up is in
  // the receiver's store or queue or was already returned by Recv.
  lemma {:induction false} NoPrematureRelease(ca: Config, cb: Config, acts: seq<Action>, i: nat)
    requires Compatible(ca, cb) && IsRun(Init(ca, cb), acts)
    ensures var s := After(Init(ca, cb), acts);
            (GivenUp(s.a, i) ==> ArrivedAt(s.b, i)) && (GivenUp(s.b, i) ==> ArrivedAt(s.a, i))
  {
    InitInv(ca, cb);
    RunKeepsInv(Init(ca, cb), acts);
    var s := After(Init(ca, cb), acts);
    if GivenUp(s.a, i) { GivenUpArrived(s.a, s.b, i); }
    if GivenUp(s.b, i) { GivenUpArrived(s.b, s.a, i); }
  }

  // ---- short runs -------------------------------------------------------------

  // Fewer than half the word space of segments were handed to Send on either side.
  predicate Short(s: Pair) {
    && s.a.ep.cfg.Valid() && s.b.ep.cfg.Valid()
    && |LogOf(s.a)| <= HALF && |LogOf(s.b)| <= HALF
  }

  // A run over a network with unbounded delays, while little enough has been sent.
  predicate IsShortRun(s: Pair, acts: seq<Action>)
    decreases acts
  {
    Short(s) && (acts == [] || (Possible(s, acts[0]) && IsShortRun(Next(s, acts[0]), acts[1..])))
  }

  lemma {:induction false} ShortStepTimely(s: Pair, step: Step)
    requires PairInv(s) && Short(s) && Available(s, step)
    ensures Enabled(s, step)
  {
  }

  // For short runs the network needs no bound on its delays: all the theorems above apply.
  lemma {:induction false} ShortRunsAreRuns(s: Pair, acts: seq<Action>)
    requires PairInv(s) && IsShortRun(s, acts)
    ensures IsRun(s, acts)
    decreases acts
  {
    if acts != [] {
      match acts[0] {
        case AtA(step) => ShortStepTimely(s, step);
        case AtB(step) => ShortStepTimely(Swap(s), step);
      }
      NextKeepsInv(s, acts[0]);
      ShortRunsAreRuns(Next(s, acts[0]), acts[1..]);
    }
  }

  // So over a network that may delay datagrams for any time, too, the messages returned by
  // Recv are a prefix of those accepted by Send, and nothing is given up too early.
  lemma {:induction false} DeliveryInShortRuns(ca: Config, cb: Config, acts: seq<Action>, i: nat)
    requires Compatible(ca, cb) && IsShortRun(Init(ca, cb), acts)
    ensures IsRun(Init(ca, cb), acts)
    ensures var s := After(Init(ca, cb), acts);
            && (!ca.stream ==> s.b.delivered <= s.a.accepted) && (!cb.stream ==> s.a.delivered <= s.b.accepted)
            && Concat(s.b.delivered) <= s.a.taken && Concat(s.a.delivered) <= s.b.taken
            && (GivenUp(s.a, i) ==> ArrivedAt(s.b, i)) && (GivenUp(s.b, i) ==> ArrivedAt(s.a, i))
  {
    InitInv(ca, cb);
    ShortRunsAreRuns(Init(ca, cb), acts);
    EndToEndDelivery(ca, cb, acts);
    ByteStream(ca, cb, acts);
    NoPrematureRelease(ca, cb, acts, i);
  }
}
