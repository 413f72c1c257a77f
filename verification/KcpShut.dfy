/** Receive windows above 65535 are announced on 16 bits, and what does not fit is dropped: an
    endpoint with an empty queue announces a closed window if its window is a multiple of 65536.
 */
module KcpShut {
  import opened Words
  import opened KcpWire
  import opened KcpSpec
  import opened KcpInvariant
  import opened KcpPair
  import opened KcpHanded
  import opened KcpDelivery
  import opened KcpExchange
  import opened KcpProgress
  import opened KcpDeadlock

  // a takes the window of b for closed, everything it has sent so far has been returned at b,
  // and something waits.
  predicate ShutOut(s: Pair) {
    s.a.ep.ctl.rmt_wnd == 0 && s.a.ep.snd.queue != [] && s.b.rnxt == s.a.nxt && s.b.ep.rcv.queue == []
  }

  // ---- nothing but closed windows ------------------------------------------------------

  ghost predicate SaysClosed(conv: u32, pkt: Packet) {
    forall w <- Decode(conv, pkt.bytes).0 :: w.wnd == 0
  }

  ghost predicate Shut(s: Pair) {
    && ShutOut(s) && s.b.ep.cfg.rcv_wnd % 0x1_0000 == 0
    && (forall pkt <- s.toA :: SaysClosed(s.a.ep.cfg.conv, pkt))
  }

  // A sender that hears of closed windows only sends nothing new.
  predicate Waiting(ep: Endpoint, queue: seq<Segment>) {
    ep.ctl.rmt_wnd == 0 && ep.snd.queue == queue
  }

  lemma {:induction false} WaitingFlush(ep: Endpoint, full: bool, clock: Clock)
    requires ep.cfg.Valid() && ep.ctl.rmt_wnd == 0
    ensures Waiting(KcpSpec.Flush(ep, full, clock.probe, clock.now).ep, ep.snd.queue)
  {
    var c := Probe(ep.ctl, clock.probe);
    assert Slots(ep.snd, EffectiveWindow(ep.cfg, c)) == 0;
    SlideNone(ep.snd, ep.cfg.conv);
    PassControlKeeps(ep, c, Pass(ep, full, c, clock.now));
  }

  lemma {:induction false} WaitingAll(ep: Endpoint, ws: seq<Wire>, regular: bool)
    requires ep.ctl.rmt_wnd == 0 && forall w <- ws :: w.wnd == 0
    ensures Waiting(InputAll(ep, ws, regular), ep.snd.queue)
    decreases ws
  {
    if ws != [] { WaitingAll(InputSegment(ep, ws[0], regular), ws[1..], regular); }
  }

  lemma {:induction false} WaitingSettle(ep: Endpoint, before: u32, acks: seq<u32>, regular: bool, current: u32)
    requires ep.cfg.Valid() && ep.ctl.rmt_wnd == 0
    ensures Waiting(Settle(ep, before, acks, regular, current), ep.snd.queue)
  {
  }

  lemma {:induction false} WaitingRespond(ep: Endpoint, urgent: bool, ackNoDelay: bool, clock: Clock)
    requires ep.cfg.Valid() && ep.ctl.rmt_wnd == 0
    ensures Waiting(Respond(ep, urgent, ackNoDelay, clock).0, ep.snd.queue)
  {
    WaitingFlush(ep, urgent, clock);
  }

  lemma {:induction false} WaitingInput(ep: Endpoint, data: Bytes, regular: bool, ackNoDelay: bool, clock: Clock)
    requires ep.cfg.Valid() && ep.ctl.rmt_wnd == 0 && forall w <- Decode(ep.cfg.conv, data).0 :: w.wnd == 0
    ensures Waiting(Input(ep, data, regular, ackNoDelay, clock).0, ep.snd.queue)
  {
    var ws := Decode(ep.cfg.conv, data).0;
    WaitingAll(ep, ws, regular);
    WaitingSettle(InputAll(ep, ws, regular), ep.snd.una, AckTimes(ws), regular, clock.rtt);
    var ep2 := Settle(InputAll(ep, ws, regular), ep.snd.una, AckTimes(ws), regular, clock.rtt);
    WaitingRespond(ep2, AnyUrgent(ep, ws, regular), ackNoDelay, clock);
  }

  lemma {:induction false} WaitingStep(s: Pair, step: Step)
    requires Shut(s) && Available(s, step) && !step.Send?
    ensures Waiting(StepAtA(s, step).a.ep, s.a.ep.snd.queue)
  {
    match step {
      case Flush(full, clock) => WaitingFlush(s.a.ep, full, clock);
      case Recv(cap) =>
      case Deliver(pkt, regular, ackNoDelay, clock) => WaitingInput(s.a.ep, pkt.bytes, regular, ackNoDelay, clock);
    }
  }

  // What a receiver with an empty queue announces.
  lemma {:induction false} PacketsClosed(p: Peer, conv: u32, ws: seq<Wire>)
    requires p.ep.cfg.conv == conv && forall w <- ws :: Fits(conv, p.ep.cfg.mtu, w) && w.wnd == 0
    ensures forall pkt <- Packets(p, ws) :: SaysClosed(conv, pkt)
  {
    var out := Pack(ws, p.ep.cfg.mtu);
    PackRoundTrip(conv, p.ep.cfg.mtu, ws);
    forall pkt, w | pkt in Packets(p, ws) && w in Decode(conv, pkt.bytes).0 ensures w in ws {
      InRun(conv, out, pkt.bytes, w);
    }
  }

  lemma {:induction false} FlushClosed(ep: Endpoint, full: bool, clock: Clock)
    requires EndpointInv(ep) && ep.rcv.queue == [] && ep.cfg.rcv_wnd % 0x1_0000 == 0
    ensures forall w <- KcpSpec.Flush(ep, full, clock.probe, clock.now).emits ::
              Fits(ep.cfg.conv, ep.cfg.mtu, w) && w.wnd == 0
  {
    FlushUniform(ep, full, clock);
    FlushFits(ep, full, clock.probe, clock.now);
  }

  lemma {:induction false} InputClosed(ep: Endpoint, data: Bytes, regular: bool, ackNoDelay: bool, clock: Clock)
    requires EndpointInv(ep) && ep.cfg.rcv_wnd % 0x1_0000 == 0
    requires Input(ep, data, regular, ackNoDelay, clock).0.rcv.queue == []
    ensures forall w <- Input(ep, data, regular, ackNoDelay, clock).2 :: Fits(ep.cfg.conv, ep.cfg.mtu, w) && w.wnd == 0
  {
    var ws := Decode(ep.cfg.conv, data).0;
    InputAllKeeps(ep, ws, regular);
    SettleKeeps(InputAll(ep, ws, regular), ep.snd.una, AckTimes(ws), regular, clock.rtt);
    var ep2 := Settle(InputAll(ep, ws, regular), ep.snd.una, AckTimes(ws), regular, clock.rtt);
    if ep2.rcv.queue == [] { FlushClosed(ep2, AnyUrgent(ep, ws, regular), clock); }
  }

  // A step at b, after which its queue is empty still.
  lemma {:induction false} ClosedStep(s: Pair, step: Step)
    requires EndpointInv(s.a.ep) && Available(s, step) && !step.Send? && s.a.ep.cfg.rcv_wnd % 0x1_0000 == 0
    requires s.a.ep.rcv.queue == [] && StepAtA(s, step).a.ep.rcv.queue == []
    requires forall pkt <- s.toB :: SaysClosed(s.a.ep.cfg.conv, pkt)
    ensures forall pkt <- StepAtA(s, step).toB :: SaysClosed(s.a.ep.cfg.conv, pkt)
  {
    match step {
      case Flush(full, clock) =>
        FlushClosed(s.a.ep, full, clock);
        PacketsClosed(s.a, s.a.ep.cfg.conv, KcpSpec.Flush(s.a.ep, full, clock.probe, clock.now).emits);
      case Recv(cap) =>
      case Deliver(pkt, regular, ackNoDelay, clock) =>
        InputClosed(s.a.ep, pkt.bytes, regular, ackNoDelay, clock);
        var p1 := PeerAll(s.a, Decode(s.a.ep.cfg.conv, pkt.bytes).0, pkt.stamps, regular);
        PacketsClosed(p1, s.a.ep.cfg.conv, Input(s.a.ep, pkt.bytes, regular, ackNoDelay, clock).2);
    }
  }

  // As long as a numbers nothing new, nothing new is returned at b.
  lemma {:induction false} StillEmpty(s: Pair, s1: Pair)
    requires Sane(s) && Sane(s1) && Kept(s, s1) && ShutOut(s) && s1.a.ep.snd.queue == s.a.ep.snd.queue
    ensures s1.a.nxt == s.a.nxt && s1.b.rnxt == s1.a.nxt && s1.b.ep.rcv.queue == []
  {
    Numbers(s);
    Numbers(s1);
  }

  lemma {:induction false} ShutStep(s: Pair, act: Action)
    requires Sane(s) && Shut(s) && Timely(s, act) && !StepOf(act).Send?
    ensures Shut(Next(s, act)) && Next(s, act).a.nxt == s.a.nxt
  {
    SaneNext(s, act);
    LeadsKept(s, Next(s, act));
    match act {
      case AtA(step) => ShutStepA(s, step);
      case AtB(step) => ShutStepB(s, step);
    }
  }

  lemma {:induction false} ShutStepA(s: Pair, step: Step)
    requires Sane(s) && Shut(s) && Available(s, step) && !step.Send?
    requires Sane(StepAtA(s, step)) && Kept(s, StepAtA(s, step))
    ensures Shut(StepAtA(s, step)) && StepAtA(s, step).a.nxt == s.a.nxt
  {
    WaitingStep(s, step);
    StillEmpty(s, StepAtA(s, step));
  }

  lemma {:induction false} ShutStepB(s: Pair, step: Step)
    requires Sane(s) && Shut(s) && Available(Swap(s), step) && !step.Send?
    requires Sane(Swap(StepAtA(Swap(s), step))) && Kept(s, Swap(StepAtA(Swap(s), step)))
    ensures var s1 := Swap(StepAtA(Swap(s), step)); Shut(s1) && s1.a.nxt == s.a.nxt
  {
    assert EndpointInv(s.b.ep) && s.a.ep.cfg.conv == s.b.ep.cfg.conv by { assert Asked(0); }
    StillEmpty(s, Swap(StepAtA(Swap(s), step)));
    ClosedStep(Swap(s), step);
  }

  lemma {:induction false} ShutForever(s: Pair, acts: seq<Action>)
    requires Sane(s) && Shut(s) && Quiet(acts) && IsRun(s, acts)
    ensures Shut(After(s, acts)) && After(s, acts).a.nxt == s.a.nxt && Sane(After(s, acts))
    decreases acts
  {
    if acts != [] {
      assert acts[0] in acts;
      ShutStep(s, acts[0]);
      SaneOn(s, acts[0]);
      forall act | act in acts[1..] ensures act in acts { }
      ShutForever(Next(s, acts[0]), acts[1..]);
    }
  }

  // ---- exactly when the window opens ------------------------------------------------------

  lemma {:induction false} Reopens(s: Pair) returns (s1: Pair)
    requires Sane(s) && ShutOut(s) && s.a.ep.cfg.snd_wnd > 0 && s.b.ep.cfg.rcv_wnd % 0x1_0000 != 0
    ensures Leads(s, s1) && s1.a.nxt > s.a.nxt
  {
    var s0 := SyncClosed(s);
    LeadsKept(s, s0);
    Numbers(s);
    Numbers(s0);
    s1 := s0;
    if s0.a.nxt <= s.a.nxt {
      s1 := Open(s0);
      LeadsOn(s, s0, s1);
    }
  }

  // These flushes, deliveries and Recvs make a send something new.
  ghost predicate SendsOn(s: Pair, more: seq<Action>) {
    Quiet(more) && IsRun(s, more) && After(s, more).a.nxt > s.a.nxt
  }

  // A sender that is shut out by an empty queue sends again if and only if the window is not a
  // multiple of 65536; if it is, what waits is never returned.
  lemma {:induction false} ShutOutExactly(ca: Config, cb: Config, acts: seq<Action>)
    requires Compatible(ca, cb) && IsRun(Init(ca, cb), acts) && ca.snd_wnd > 0 && ShutOut(After(Init(ca, cb), acts))
    ensures var s := After(Init(ca, cb), acts);
            && ((exists more :: SendsOn(Cut(s), more)) <==> cb.rcv_wnd % 0x1_0000 != 0)
            && (cb.rcv_wnd % 0x1_0000 == 0 ==> forall more :: !Brings(Cut(s), more))
  {
    var s := Cut(After(Init(ca, cb), acts));
    ReachedSane(ca, cb, acts);
    SaneCut(After(Init(ca, cb), acts));
    if cb.rcv_wnd % 0x1_0000 != 0 {
      var s1 := Reopens(s);
      assert Asked(0);
      var more :| QuietRun(s, more, s1);
      assert SendsOn(s, more);
    } else {
      forall more | Quiet(more) && IsRun(s, more) ensures !SendsOn(s, more) && !Brings(s, more) {
        ShutForever(s, more);
        assert QuietRun(s, more, After(s, more));
        LeadsKept(s, After(s, more));
        SaneMissing(After(s, more));
      }
    }
  }

  // ---- every such window shuts a out at some time -----------------------------------------------

  lemma {:induction false} LeadsGets(s: Pair, s1: Pair)
    requires Leads(s, s1)
    ensures Gets(s, s1)
  {
    assert Asked(0);
    var acts :| QuietRun(s, acts, s1);
    assert IsRun(s, acts) && After(s, acts) == s1;
  }

  // Sending a byte leaves a piece in the queue.
  lemma {:induction false} SendByte(p: Peer, x: u8)
    requires p.ep.cfg.Valid() && p.ep.snd.queue == []
    ensures var p1 := SendStep(p, [x]);
            && |p1.ep.snd.queue| == 1 && p1.ep.snd.buf == p.ep.snd.buf && p1.ep.cfg == p.ep.cfg
            && p1.ep.rcv == p.ep.rcv && p1.ep.ctl == p.ep.ctl && p1 == p.(ep := p1.ep, accepted := p.accepted + [[x]],
                                                                         taken := p.taken + [x])
  {
    assert [x][Room([], 1, p.ep.cfg.Mss())..] == [x];
  }

  // a sends a byte that b gets and returns.
  lemma {:induction false} OneReturned(ca: Config, cb: Config, x: u8) returns (s: Pair)
    requires Compatible(ca, cb) && ca.snd_wnd > 0 && cb.rcv_wnd <= WIDE
    ensures Gets(Init(ca, cb), s) && Sane(s) && s.b.rnxt == s.a.nxt == |LogOf(s.a)| && s.b.ep.rcv.queue == []
    ensures s.a.ep.cfg == ca && s.b.ep.cfg == cb && |LogOf(s.b)| == 0 && s.a.accepted == [[x]]
  {
    var s0 := Init(ca, cb);
    InitInv(ca, cb);
    GetsStep(s0, AtA(Send([x])));
    SendByte(s0.a, x);
    var s1 := Next(s0, AtA(Send([x])));
    s := Returns(s1);
    LeadsGets(s1, s);
    GetsOn(s0, s1, s);
  }

  lemma {:induction false} Returns(s: Pair) returns (s1: Pair)
    requires Sane(s) && |LogOf(s.a)| == 1 && s.a.ep.snd.queue != [] && |s.a.ep.snd.buf| < Window(s.a)
    requires s.b.rnxt == 0 && s.b.ep.rcv.queue == [] && s.b.ep.cfg.rcv_wnd <= WIDE
    requires FitsWindow(s.a, s.b.ep.cfg.rcv_wnd)
    ensures Leads(s, s1) && Sane(s1) && Kept(s, s1) && s1.b.rnxt == s1.a.nxt == 1 && s1.b.ep.rcv.queue == []
  {
    Numbers(s);
    var s2 := Open(s);
    var s3 := SendNext(s2);
    LeadsOn(s, s2, s3);
    LeadsKept(s, s3);
    Numbers(s3);
    if !Ready(s3.b.ep.rcv.queue) { NotReady(s3); }
    s1 := RecvB(s3);
    LeadsOn(s, s3, s1);
    LeadsKept(s, s1);
    Numbers(s1);
    ReturnedBelow(s1);
  }

  ghost predicate EndsShutOut(ca: Config, cb: Config, acts: seq<Action>) {
    Compatible(ca, cb) && IsRun(Init(ca, cb), acts) && ShutOut(After(Init(ca, cb), acts))
  }

  // Whatever the other settings are.
  lemma {:induction false} ShutOutReached(ca: Config, cb: Config)
    requires Compatible(ca, cb) && ca.snd_wnd > 0 && cb.snd_wnd > 0
    requires cb.rcv_wnd % 0x1_0000 == 0 && cb.rcv_wnd <= WIDE
    ensures exists acts :: EndsShutOut(ca, cb, acts)
  {
    var s := GetsShutOut(ca, cb);
    assert Asked(0);
    var acts :| IsRun(Init(ca, cb), acts) && After(Init(ca, cb), acts) == s;
    assert EndsShutOut(ca, cb, acts);
  }

  lemma {:induction false} GetsShutOut(ca: Config, cb: Config) returns (s: Pair)
    requires Compatible(ca, cb) && ca.snd_wnd > 0 && cb.snd_wnd > 0
    requires cb.rcv_wnd % 0x1_0000 == 0 && cb.rcv_wnd <= WIDE
    ensures Gets(Init(ca, cb), s) && ShutOut(s)
  {
    var s0 := Init(ca, cb);
    var s1 := OneReturned(ca, cb, 1);
    var s2 := ByteBack(s1, 2);
    GetsOn(s0, s1, s2);
    GetsStep(s2, AtA(Send([3])));
    SendByte(s2.a, 3);
    s := Next(s2, AtA(Send([3])));
    GetsOn(s0, s2, s);
  }

  // b sends a byte, and a learns that the window of b, which is empty, is closed.
  lemma {:induction false} ByteBack(s: Pair, y: u8) returns (s1: Pair)
    requires Sane(s) && s.b.rnxt == s.a.nxt == |LogOf(s.a)| && s.b.ep.rcv.queue == [] && |LogOf(s.b)| == 0
    requires s.b.ep.cfg.snd_wnd > 0 && s.b.ep.cfg.rcv_wnd % 0x1_0000 == 0 && FitsWindow(s.a, s.b.ep.cfg.rcv_wnd)
    ensures Gets(s, s1) && Sane(s1) && s1.b.rnxt == s1.a.nxt && s1.b.ep.rcv.queue == [] && s1.a.ep.ctl.rmt_wnd == 0
    ensures s1.a.ep.snd.queue == []
  {
    SaneSwap(s);
    Numbers(Swap(s));
    GetsStep(s, AtB(Send([y])));
    SendByte(s.b, y);
    var s0 := Next(s, AtB(Send([y])));
    s1 := Unblock(s0);
    LeadsKept(s0, s1);
    LeadsGets(s0, s1);
    GetsOn(s, s0, s1);
    Numbers(s1);
    ReturnedBelow(s1);
  }
}
