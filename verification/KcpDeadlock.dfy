/** Where progress ends: two endpoints that have nothing left to say that would help, although
    something waits to be sent.  A run that leads there, and the exact condition for progress.
 */
module KcpDeadlock {
  import opened Words
  import opened KcpWire
  import opened KcpSpec
  import opened KcpInvariant
  import opened KcpFlow
  import opened KcpPair
  import opened KcpHanded
  import opened KcpDelivery
  import opened KcpExchange
  import opened KcpProgress

  // ---- flushes of a side that is spent ---------------------------------------------

  lemma {:induction false} AckedPass(buf: seq<Segment>, e: TxEnv, now: nat -> u32)
    requires forall k :: 0 <= k < |buf| ==> buf[k].acked
    ensures var t := TxAll(buf, e, now); t.done == buf && t.emits == [] && !t.change && !t.lost
    decreases |buf|
  {
    if buf != [] {
      AckedPass(buf[..|buf| - 1], e, now);
      assert buf == buf[..|buf| - 1] + [buf[|buf| - 1]];
    }
  }

  lemma {:induction false} SlideNone(s: Sender, conv: u32)
    ensures Slide(s, 0, conv) == s.(nxt := Add32(s.nxt, 0))
  {
    var s1 := Slide(s, 0, conv);
    assert s1.buf == s.buf && s1.queue == s.queue;
  }

  // Only the answers that it owes are sent.
  lemma {:induction false} SpentEmits(p: Peer, full: bool, clock: Clock)
    requires p.ep.cfg.Valid() && Spent(p) && !p.ep.ctl.askSend
    ensures forall w <- KcpSpec.Flush(p.ep, full, clock.probe, clock.now).emits :: Answer(p, w)
    ensures !Owes(p) ==> KcpSpec.Flush(p.ep, full, clock.probe, clock.now).emits == []
  {
    var c := Probe(p.ep.ctl, clock.probe);
    SlideNone(p.ep.snd, p.ep.cfg.conv);
    AckedPass(p.ep.snd.buf, PassEnv(p.ep, c), clock.now);
    AcksUniform(p.ep, |p.ep.rcv.acks|);
  }

  lemma {:induction false} SpentFlush(p: Peer, full: bool, clock: Clock)
    requires p.ep.cfg.Valid() && Spent(p) && !p.ep.ctl.askSend
    ensures var p1 := FlushStep(p, full, clock).0;
            && Spent(p1) && !Owes(p1) && p1.ep.snd.queue == p.ep.snd.queue && p1.ep.snd.buf == p.ep.snd.buf
            && p1.ep.rcv == p.ep.rcv.(acks := []) && p1.ep.cfg == p.ep.cfg
  {
    var c := Probe(p.ep.ctl, clock.probe);
    SlideNone(p.ep.snd, p.ep.cfg.conv);
    AckedPass(p.ep.snd.buf, PassEnv(p.ep, c), clock.now);
  }

  // An acknowledgement or a window announced.
  predicate Answer(p: Peer, w: Wire) {
    (w.cmd == CMD_ACK || w.cmd == CMD_WINS) && w.wnd == Unused(p.ep.rcv, p.ep.cfg.rcv_wnd)
  }

  // ---- what an idle side hears -------------------------------------------------------

  // An answer that announces an open window.
  predicate Mute(w: Wire) {
    (w.cmd == CMD_ACK || w.cmd == CMD_WINS) && w.wnd != 0
  }

  // Nothing to send, nothing in flight that is not acknowledged, nothing owed.
  predicate Still(p: Peer) {
    Spent(p) && !Owes(p) && p.ep.snd.queue == [] && !p.ep.ctl.askSend
  }

  lemma {:induction false} MuteSegment(p: Peer, w: Wire, regular: bool)
    requires Still(p) && Mute(w)
    ensures var p1 := p.(ep := InputSegment(p.ep, w, regular)); Still(p1) && p1.ep.rcv == p.ep.rcv
  {
  }

  lemma {:induction false} MuteAll(p: Peer, ws: seq<Wire>, regular: bool)
    requires Still(p) && forall w <- ws :: Mute(w)
    ensures var p1 := p.(ep := InputAll(p.ep, ws, regular)); Still(p1) && p1.ep.rcv == p.ep.rcv
    decreases ws
  {
    if ws != [] {
      MuteSegment(p, ws[0], regular);
      MuteAll(p.(ep := InputSegment(p.ep, ws[0], regular)), ws[1..], regular);
    }
  }

  lemma {:induction false} MuteSettle(p: Peer, before: u32, acks: seq<u32>, regular: bool, current: u32)
    requires p.ep.cfg.Valid() && Still(p)
    ensures var p1 := p.(ep := Settle(p.ep, before, acks, regular, current)); Still(p1) && p1.ep.rcv == p.ep.rcv
  {
  }

  lemma {:induction false} MuteRespond(p: Peer, urgent: bool, ackNoDelay: bool, clock: Clock)
    requires p.ep.cfg.Valid() && Still(p)
    ensures var r := Respond(p.ep, urgent, ackNoDelay, clock);
            var p1 := p.(ep := r.0); r.1 == [] && Still(p1) && p1.ep.rcv == p.ep.rcv
  {
    SpentEmits(p, urgent, clock);
    SpentFlush(p, urgent, clock);
  }

  // It stays idle and says nothing.
  lemma {:induction false} MuteInput(p: Peer, data: Bytes, regular: bool, ackNoDelay: bool, clock: Clock)
    requires p.ep.cfg.Valid() && Still(p) && Decode(p.ep.cfg.conv, data).1 == 0
    requires forall w <- Decode(p.ep.cfg.conv, data).0 :: Mute(w)
    ensures var r := Input(p.ep, data, regular, ackNoDelay, clock);
            var p1 := p.(ep := r.0); r.2 == [] && Still(p1) && p1.ep.rcv == p.ep.rcv
  {
    if |data| >= OVERHEAD {
      var ws := Decode(p.ep.cfg.conv, data).0;
      var p1 := p.(ep := InputAll(p.ep, ws, regular));
      MuteAll(p, ws, regular);
      var p2 := p1.(ep := Settle(p1.ep, p.ep.snd.una, AckTimes(ws), regular, clock.rtt));
      MuteSettle(p1, p.ep.snd.una, AckTimes(ws), regular, clock.rtt);
      MuteRespond(p2, AnyUrgent(p.ep, ws, regular), ackNoDelay, clock);
      InputParts(p.ep, data, regular, ackNoDelay, clock);
    }
  }

  // ---- a deadlock lasts ----------------------------------------------------------------

  // All segments of the datagram are such answers.
  ghost predicate Harmless(conv: u32, pkt: Packet) {
    forall w <- Decode(conv, pkt.bytes).0 :: Mute(w)
  }

  // A deadlock, and nothing on the network that could end it.
  ghost predicate Hopeless(s: Pair) {
    && Deadlocked(s) && s.toA == {} && s.a.ep.cfg.rcv_wnd <= MAX_WINDOW
    && (forall pkt <- s.toB :: s.b.ep.snd.queue == [] && Harmless(s.b.ep.cfg.conv, pkt))
  }

  lemma {:induction false} SaneEnds(s: Pair)
    requires Sane(s)
    ensures EndpointInv(s.a.ep) && EndpointInv(s.b.ep) && s.a.ep.cfg.conv == s.b.ep.cfg.conv
    ensures forall pkt <- s.toB :: Decode(s.b.ep.cfg.conv, pkt.bytes).1 == 0
  {
    assert Asked(0);
    forall pkt | pkt in s.toB ensures Decode(s.b.ep.cfg.conv, pkt.bytes).1 == 0 { assert Genuine(s.a, pkt); }
  }

  lemma {:induction false} AnswersHarmless(p: Peer, ws: seq<Wire>, pkt: Packet)
    requires (forall w <- ws :: Fits(p.ep.cfg.conv, p.ep.cfg.mtu, w) && Mute(w)) && pkt in Packets(p, ws)
    ensures Harmless(p.ep.cfg.conv, pkt)
  {
    var conv, out := p.ep.cfg.conv, Pack(ws, p.ep.cfg.mtu);
    PackRoundTrip(conv, p.ep.cfg.mtu, ws);
    forall w | w in Decode(conv, pkt.bytes).0 ensures w in ws { InRun(conv, out, pkt.bytes, w); }
  }

  lemma {:induction false} FlushHarmless(p: Peer, full: bool, clock: Clock)
    requires EndpointInv(p.ep) && Spent(p) && (Owes(p) ==> !Full(p) && p.ep.cfg.rcv_wnd <= MAX_WINDOW)
    ensures forall pkt <- FlushStep(p, full, clock).1 :: Harmless(p.ep.cfg.conv, pkt)
    ensures !Owes(p) ==> FlushStep(p, full, clock).1 == {}
  {
    SpentEmits(p, full, clock);
    FlushFits(p.ep, full, clock.probe, clock.now);
    var emits := KcpSpec.Flush(p.ep, full, clock.probe, clock.now).emits;
    NoPackets(p);
    forall pkt | pkt in Packets(p, emits) ensures Harmless(p.ep.cfg.conv, pkt) { AnswersHarmless(p, emits, pkt); }
  }

  // Flushing a sends at most answers, and those only while b has nothing to send.
  lemma {:induction false} HopelessFlushA(s: Pair, full: bool, clock: Clock)
    requires Sane(s) && Hopeless(s)
    ensures var (a, out) := FlushStep(s.a, full, clock);
            Hopeless(Pair(a, s.b, s.toB + out, s.toA)) && a.ep.snd.queue == s.a.ep.snd.queue
  {
    SaneEnds(s);
    FlushHarmless(s.a, full, clock);
    SpentFlush(s.a, full, clock);
  }

  // Recv calls for an answer only when it makes room in a full queue.
  lemma {:induction false} RecvRoom(p: Peer, cap: nat)
    requires EndpointInv(p.ep)
    ensures var p1 := RecvStep(p, cap);
            && p1.ep.snd == p.ep.snd && p1.ep.cfg == p.ep.cfg && p1.ep.ctl.rmt_wnd == p.ep.ctl.rmt_wnd
            && p1.ep.ctl.cwnd == p.ep.ctl.cwnd
            && (!Full(p) ==> !Full(p1)) && (!Full(p) || Full(p1) ==> Owes(p1) == Owes(p))
            && (Full(p) && !Frees(p.ep.rcv, p.ep.cfg.rcv_wnd) ==> Full(p1) && !Frees(p1.ep.rcv, p1.ep.cfg.rcv_wnd))
  {
    MoveReadyAcks(p.ep.rcv.(queue := p.ep.rcv.queue[MessageEnd(p.ep.rcv.queue)..]), p.ep.cfg.rcv_wnd);
  }

  // Recv at a does not make it speak while b waits to send.
  lemma {:induction false} HopelessRecvA(s: Pair, cap: nat)
    requires Sane(s) && Hopeless(s)
    ensures Hopeless(s.(a := RecvStep(s.a, cap))) && RecvStep(s.a, cap).ep.snd == s.a.ep.snd
  {
    SaneEnds(s);
    RecvRoom(s.a, cap);
  }

  lemma {:induction false} HopelessFlushB(s: Pair, full: bool, clock: Clock)
    requires Sane(s) && Hopeless(s)
    ensures var (b, out) := FlushStep(s.b, full, clock); Hopeless(Pair(s.a, b, s.toB, s.toA + out))
  {
    SaneEnds(s);
    FlushHarmless(s.b, full, clock);
    SpentFlush(s.b, full, clock);
  }

  lemma {:induction false} HopelessRecvB(s: Pair, cap: nat)
    requires Sane(s) && Hopeless(s)
    ensures Hopeless(s.(b := RecvStep(s.b, cap)))
  {
    SaneEnds(s);
    RecvRoom(s.b, cap);
  }

  lemma {:induction false} HopelessDeliverB(s: Pair, pkt: Packet, regular: bool, ackNoDelay: bool, clock: Clock)
    requires Sane(s) && Hopeless(s) && pkt in s.toB && |pkt.stamps| == |Decode(s.b.ep.cfg.conv, pkt.bytes).0|
    ensures var (b, out) := DeliverStep(s.b, pkt, regular, ackNoDelay, clock);
            Hopeless(Pair(s.a, b, s.toB, s.toA + out))
  {
    SaneEnds(s);
    MuteDeliver(s.b, pkt, regular, ackNoDelay, clock);
  }

  lemma {:induction false} MuteDeliver(p: Peer, pkt: Packet, regular: bool, ackNoDelay: bool, clock: Clock)
    requires p.ep.cfg.Valid() && Still(p) && Decode(p.ep.cfg.conv, pkt.bytes).1 == 0 && Harmless(p.ep.cfg.conv, pkt)
    requires |pkt.stamps| == |Decode(p.ep.cfg.conv, pkt.bytes).0|
    ensures var (p1, out) := DeliverStep(p, pkt, regular, ackNoDelay, clock);
            Still(p1) && p1.ep.rcv == p.ep.rcv && p1.ep.cfg == p.ep.cfg && out == {}
  {
    MuteInput(p, pkt.bytes, regular, ackNoDelay, clock);
    NoPackets(PeerAll(p, Decode(p.ep.cfg.conv, pkt.bytes).0, pkt.stamps, regular));
  }

  lemma {:induction false} HopelessStepA(s: Pair, step: Step)
    requires Sane(s) && Hopeless(s) && Available(s, step) && !step.Send?
    ensures Hopeless(StepAtA(s, step)) && StepAtA(s, step).a.ep.snd.queue == s.a.ep.snd.queue
  {
    match step {
      case Flush(full, clock) => HopelessFlushA(s, full, clock);
      case Recv(cap) => HopelessRecvA(s, cap);
    }
  }

  lemma {:induction false} HopelessStepB(s: Pair, step: Step)
    requires Sane(s) && Hopeless(s) && Available(Swap(s), step) && !step.Send?
    ensures Hopeless(Swap(StepAtA(Swap(s), step)))
  {
    match step {
      case Flush(full, clock) => HopelessFlushB(s, full, clock);
      case Recv(cap) => HopelessRecvB(s, cap);
      case Deliver(pkt, regular, ackNoDelay, clock) => HopelessDeliverB(s, pkt, regular, ackNoDelay, clock);
    }
  }

  lemma {:induction false} HopelessStep(s: Pair, act: Action)
    requires Sane(s) && Hopeless(s) && Timely(s, act) && !StepOf(act).Send?
    ensures Hopeless(Next(s, act)) && Next(s, act).a.ep.snd.queue == s.a.ep.snd.queue
  {
    match act {
      case AtA(step) => HopelessStepA(s, step);
      case AtB(step) => HopelessStepB(s, step);
    }
  }

  lemma {:induction false} HopelessForever(s: Pair, acts: seq<Action>)
    requires Sane(s) && Hopeless(s) && Quiet(acts) && IsRun(s, acts)
    ensures Hopeless(After(s, acts)) && After(s, acts).a.ep.snd.queue == s.a.ep.snd.queue && Sane(After(s, acts))
    decreases acts
  {
    if acts != [] {
      assert acts[0] in acts;
      HopelessStep(s, acts[0]);
      SaneOn(s, acts[0]);
      forall act | act in acts[1..] ensures act in acts { }
      HopelessForever(Next(s, acts[0]), acts[1..]);
    }
  }

  // Unless something is sent, nothing ends a deadlock: whatever the clock reads, whatever is
  // flushed, received and delivered, in whatever order and how often.
  lemma {:induction false} DeadForever(ca: Config, cb: Config, acts: seq<Action>, more: seq<Action>)
    requires Compatible(ca, cb) && IsRun(Init(ca, cb), acts) && ca.rcv_wnd <= MAX_WINDOW
    requires var s := After(Init(ca, cb), acts); Deadlocked(s) && Quiet(more) && IsRun(Cut(s), more)
    ensures var s := After(Init(ca, cb), acts); var s1 := After(Cut(s), more);
            Deadlocked(s1) && s1.a.ep.snd.queue == s.a.ep.snd.queue
  {
    var s := After(Init(ca, cb), acts);
    ReachedSane(ca, cb, acts);
    SaneCut(s);
    HopelessForever(Cut(s), more);
  }

  // ---- progress, exactly -----------------------------------------------------------------

  lemma {:induction false} FlatNonEmpty(log: seq<Piece>)
    requires Streamed(log) && log != []
    ensures Flat(log) != []
  {
  }

  // What is not returned is missing.
  lemma {:induction false} Missing(p: Peer, delivered: seq<Bytes>, at: int)
    requires p.ep.cfg.Valid() && Handed(p, delivered, at) && at < |LogOf(p)|
    ensures if p.ep.cfg.stream then Concat(delivered) != p.taken else delivered != p.accepted
  {
    var log := LogOf(p);
    if p.ep.cfg.stream {
      assert log[..at] == p.sent[..at] && log == log[..at] + log[at..];
      FlatAppend(log[..at], log[at..]);
      FlatNonEmpty(log[at..]);
    } else {
      assert p.accepted[..|p.accepted|] == p.accepted;
    }
  }

  lemma {:induction false} SaneMissing(s: Pair)
    requires Sane(s) && s.a.ep.snd.queue != []
    ensures Returned(s.b) < |LogOf(s.a)|
    ensures if s.a.ep.cfg.stream then Concat(s.b.delivered) != s.a.taken else s.b.delivered != s.a.accepted
  {
    Numbers(s);
    ReturnedBelow(s);
    assert Asked(0);
    Missing(s.a, s.b.delivered, Returned(s.b));
  }

  // What waits in a deadlock is never returned.
  lemma {:induction false} NeverReturned(ca: Config, cb: Config, acts: seq<Action>, more: seq<Action>)
    requires Compatible(ca, cb) && IsRun(Init(ca, cb), acts) && ca.rcv_wnd <= MAX_WINDOW
    requires var s := After(Init(ca, cb), acts); Deadlocked(s) && Quiet(more) && IsRun(Cut(s), more)
    ensures var s := After(Init(ca, cb), acts);
            Returned(After(Cut(s), more).b) < |LogOf(s.a)| && !Brings(Cut(s), more)
  {
    var s := Cut(After(Init(ca, cb), acts));
    ReachedSane(ca, cb, acts);
    SaneCut(After(Init(ca, cb), acts));
    HopelessForever(s, more);
    assert QuietRun(s, more, After(s, more));
    LeadsKept(s, After(s, more));
    SaneMissing(After(s, more));
  }

  // A message that does not fit the window of b is not returned either.
  lemma {:induction false} MustFit(ca: Config, cb: Config, acts: seq<Action>, more: seq<Action>)
    requires Compatible(ca, cb) && IsRun(Init(ca, cb), acts) && Brings(Cut(After(Init(ca, cb), acts)), more)
    ensures FitsWindow(After(Init(ca, cb), acts).a, cb.rcv_wnd)
  {
    var s := After(Init(ca, cb), acts);
    ReachedSane(ca, cb, acts);
    InitInv(ca, cb);
    RunFits(Init(ca, cb), acts);
    SaneCut(s);
    RunFits(Cut(s), more);
    assert QuietRun(Cut(s), more, After(Cut(s), more));
    LeadsKept(Cut(s), After(Cut(s), more));
  }

  // Exactly when a reachable state can still return everything that a was given, though the
  // network has lost whatever was on it: no message is larger than the window of b, and the
  // pair is not deadlocked.
  lemma {:induction false} ProgressExactly(ca: Config, cb: Config, acts: seq<Action>)
    requires Compatible(ca, cb) && IsRun(Init(ca, cb), acts)
    requires ca.snd_wnd > 0 && cb.snd_wnd > 0 && ca.rcv_wnd <= MAX_WINDOW && cb.rcv_wnd <= MAX_WINDOW
    ensures var s := After(Init(ca, cb), acts);
            (exists more :: Brings(Cut(s), more)) <==> FitsWindow(s.a, cb.rcv_wnd) && !Deadlocked(s)
  {
    var s := After(Init(ca, cb), acts);
    if FitsWindow(s.a, cb.rcv_wnd) && !Deadlocked(s) { NoDeadlock(ca, cb, acts); }
    forall more | Brings(Cut(s), more) ensures FitsWindow(s.a, cb.rcv_wnd) && !Deadlocked(s) {
      MustFit(ca, cb, acts, more);
      if Deadlocked(s) { NeverReturned(ca, cb, acts, more); }
    }
  }

  // ---- a run that leads there -----------------------------------------------------------

  const MTU: u32 := 100

  // The receiver of b holds one segment only; neither side limits its rate.
  function Settings(rcv_wnd: u32): Config {
    Config(7, MTU, 32, rcv_wnd, 100, 100, false, 0, true, false, 20)
  }

  function PushOf(wnd: u16, sn: u32, d: u8): Wire { Wire(7, CMD_PUSH, 0, wnd, 0, sn, 0, [d]) }

  function AckOf(wnd: u16, sn: u32): Wire { Wire(7, CMD_ACK, 0, wnd, 0, sn, 1, []) }

  // An entry of the window that waits.
  predicate Waits(seg: Segment, sn: u32, d: u8) {
    seg.cmd == CMD_PUSH && seg.conv == 7 && seg.sn == sn && seg.frg == 0 && !seg.acked && seg.data == [d]
  }

  predicate Plain(c: Control) { !c.askSend && !c.askTell && c.probe_wait == 0 }

  // b has sent y.
  predicate SentOne(ep: Endpoint, wnd: u32, y: u8) {
    && ep.cfg == Settings(wnd) && ep.snd.una == 0 && ep.snd.nxt == 1 && ep.snd.queue == [] && |ep.snd.buf| == 1
    && Waits(ep.snd.buf[0], 0, y) && ep.ctl.rmt_wnd == 32 && Plain(ep.ctl)
  }

  predicate SentTwo(ep: Endpoint, wnd: u32, x: u8, y: u8) {
    && ep.cfg == Settings(wnd) && ep.snd.una == 0 && ep.snd.nxt == 2 && ep.snd.queue == [] && |ep.snd.buf| == 2
    && Waits(ep.snd.buf[0], 0, x) && Waits(ep.snd.buf[1], 1, y) && ep.ctl.rmt_wnd == 32 && Plain(ep.ctl)
  }

  const EMPTY: Receiver := Receiver(map[], [], 0, [])

  lemma {:induction false} SendsOne(wnd: u32, y: u8)
    requires 0 < wnd <= MAX_WINDOW
    ensures var ep := KcpSpec.Send(NewEndpoint(Settings(wnd)), [y]).0;
            && ep == NewEndpoint(Settings(wnd)).(snd := Sender([NewSegment(0, [y])], [], 0, 0))
            && KcpSpec.Send(NewEndpoint(Settings(wnd)), [y]).1 == 0
  {
  }

  // What the pass makes of an entry that is new.
  lemma {:induction false} PassesNew(t: Tx, seg: Segment, sn: u32, d: u8, e: TxEnv)
    requires Waits(seg, sn, d) && seg.xmit == 0 && t.current == 0
    ensures var t1 := TxStep(t, seg, e, Always(0)); var n := |t.done|;
            && |t1.done| == n + 1 && t1.done[..n] == t.done && Waits(t1.done[n], sn, d) && t1.current == 0
            && t1.emits == t.emits + [Wire(7, CMD_PUSH, 0, e.wnd, 0, sn, e.una, [d])]
  {
  }

  lemma {:induction false} PassesOne(buf: seq<Segment>, x: u8, e: TxEnv)
    requires |buf| == 1 && Waits(buf[0], 0, x) && buf[0].xmit == 0
    ensures var t := TxAll(buf, e, Always(0));
            && |t.done| == 1 && Waits(t.done[0], 0, x) && t.current == 0
            && t.emits == [Wire(7, CMD_PUSH, 0, e.wnd, 0, 0, e.una, [x])]
  {
    var t := TxAll([], e, Always(0));
    assert buf[..0] == [] && TxAll(buf, e, Always(0)) == TxStep(t, buf[0], e, Always(0));
    PassesNew(t, buf[0], 0, x, e);
  }

  lemma {:induction false} PassesTwo(buf: seq<Segment>, x: u8, y: u8, e: TxEnv)
    requires |buf| == 2 && Waits(buf[0], 0, x) && Waits(buf[1], 1, y) && buf[0].xmit == buf[1].xmit == 0
    ensures var t := TxAll(buf, e, Always(0));
            && |t.done| == 2 && Waits(t.done[0], 0, x) && Waits(t.done[1], 1, y)
            && t.emits == [Wire(7, CMD_PUSH, 0, e.wnd, 0, 0, e.una, [x]), Wire(7, CMD_PUSH, 0, e.wnd, 0, 1, e.una, [y])]
  {
    PassesOne(buf[..1], x, e);
    var t1, t := TxAll(buf[..1], e, Always(0)), TxAll(buf, e, Always(0));
    assert t == TxStep(t1, buf[1], e, Always(0));
    PassesNew(t1, buf[1], 1, y, e);
    assert t.done[0] == t.done[..1][0];
  }

  lemma {:induction false} FlushesOne(wnd: u32, y: u8)
    requires 0 < wnd <= MAX_WINDOW
    ensures var ep := NewEndpoint(Settings(wnd)).(snd := Sender([NewSegment(0, [y])], [], 0, 0));
            var f := KcpSpec.Flush(ep, true, 0, Always(0));
            SentOne(f.ep, wnd, y) && f.ep.rcv == EMPTY && f.emits == [PushOf(wnd, 0, y)]
  {
    var ep := NewEndpoint(Settings(wnd)).(snd := Sender([NewSegment(0, [y])], [], 0, 0));
    var c := Probe(ep.ctl, 0);
    PassesOne(Slid(ep, c).buf, y, PassEnv(ep, c));
    assert AckWires(ep, 0) == [];
  }

  lemma {:induction false} FlushesTwo(x: u8, y: u8)
    ensures var ep := NewEndpoint(Settings(32)).(snd := Sender([NewSegment(0, [x]), NewSegment(0, [y])], [], 0, 0));
            var f := KcpSpec.Flush(ep, true, 0, Always(0));
            SentTwo(f.ep, 32, x, y) && f.ep.rcv == EMPTY && f.emits == [PushOf(32, 0, x), PushOf(32, 1, y)]
  {
    var ep := NewEndpoint(Settings(32)).(snd := Sender([NewSegment(0, [x]), NewSegment(0, [y])], [], 0, 0));
    var c := Probe(ep.ctl, 0);
    PassesTwo(Slid(ep, c).buf, x, y, PassEnv(ep, c));
    assert AckWires(ep, 0) == [];
  }

  lemma {:induction false} SendsTwo(x: u8, y: u8)
    ensures var ep := NewEndpoint(Settings(32)).(snd := Sender([NewSegment(0, [x])], [], 0, 0));
            KcpSpec.Send(ep, [y]).0 == ep.(snd := Sender([NewSegment(0, [x]), NewSegment(0, [y])], [], 0, 0))
  {
    assert [NewSegment(0, [x])] + [NewSegment(0, [y])] == [NewSegment(0, [x]), NewSegment(0, [y])];
  }

  lemma {:induction false} SendsMore(ep: Endpoint, d: u8)
    requires OneAcked(ep)
    ensures KcpSpec.Send(ep, [d]).0 == ep.(snd := ep.snd.(queue := [NewSegment(0, [d])]))
  {
    assert [] + [NewSegment(0, [d])] == [NewSegment(0, [d])];
  }

  // b takes in the two pieces: the first fills its queue, the second stays in the store.
  lemma {:induction false} TakesFirst(r: Receiver, wnd: u32, u: u16, x: u8)
    requires r == EMPTY && 0 < wnd <= MAX_WINDOW
    ensures TakePush(r, wnd, PushOf(u, 0, x)) == Receiver(map[], [FromWire(PushOf(u, 0, x))], 1, [Ack(0, 0)])
  {
    var w := PushOf(u, 0, x);
    var r1 := Receiver(map[0 := FromWire(w)], [], 0, [Ack(0, 0)]);
    assert Store(r.(acks := r.acks + [Ack(0, 0)]), FromWire(w)) == r1;
    var r2 := Receiver(map[], [FromWire(w)], 1, [Ack(0, 0)]);
    assert r1.buf - {0} == map[] && [] + [FromWire(w)] == [FromWire(w)];
    assert MoveReady(r1, wnd) == MoveReady(r2, wnd) == r2;
  }

  lemma {:induction false} TakesSecond(seg: Segment, y: u8)
    ensures TakePush(Receiver(map[], [seg], 1, [Ack(0, 0)]), 1, PushOf(32, 1, y))
         == Receiver(map[1 := FromWire(PushOf(32, 1, y))], [seg], 1, [Ack(0, 0), Ack(1, 0)])
  {
    var w := PushOf(32, 1, y);
    var r := Receiver(map[], [seg], 1, [Ack(0, 0)]);
    assert Store(r.(acks := r.acks + [Ack(1, 0)]), FromWire(w))
        == Receiver(map[1 := FromWire(w)], [seg], 1, [Ack(0, 0), Ack(1, 0)]);
  }

  function Held(x: u8, y: u8): Receiver {
    Receiver(map[1 := FromWire(PushOf(32, 1, y))], [FromWire(PushOf(32, 0, x))], 1, [Ack(0, 0), Ack(1, 0)])
  }

  lemma {:induction false} TakesTwo(ep: Endpoint, x: u8, y: u8, z: u8)
    requires SentOne(ep, 1, z) && ep.rcv == EMPTY
    ensures var ws := [PushOf(32, 0, x), PushOf(32, 1, y)]; var ep1 := InputAll(ep, ws, true);
            SentOne(ep1, 1, z) && ep1.rcv == Held(x, y) && !AnyUrgent(ep, ws, true)
  {
    var w1, w2 := PushOf(32, 0, x), PushOf(32, 1, y);
    var ws := [w1, w2];
    TakesFirst(ep.rcv, 1, 32, x);
    TakesSecond(FromWire(w1), y);
    var e1 := InputSegment(ep, w1, true);
    assert SentOne(e1, 1, z) && !Urgent(ep, w1);
    var e2 := InputSegment(e1, w2, true);
    assert SentOne(e2, 1, z) && !Urgent(e1, w2);
    assert ws[1..] == [w2] && [w2][1..] == [];
    assert InputAll(e1, [w2], true) == InputAll(e2, [], true) == e2;
    assert !AnyUrgent(e2, [], true) && !AnyUrgent(e1, [w2], true);
  }

  // Its answer acknowledges the second piece, but not the number after it.
  lemma {:induction false} AnswersTwo(ep: Endpoint, x: u8, y: u8, z: u8)
    requires SentOne(ep, 1, z) && ep.rcv == Held(x, y)
    ensures var f := KcpSpec.Flush(ep, false, 0, Always(0));
            SentOne(f.ep, 1, z) && f.ep.rcv == Held(x, y).(acks := []) && f.emits == [AckOf(0, 1)]
  {
    SlideNone(ep.snd, 7);
    assert AckWires(ep, 0) == [] && AckWires(ep, 1) == [] && AckWires(ep, 2) == [AckOf(0, 1)];
  }

  // a has both pieces acknowledged, the second one by one.
  predicate OneAcked(ep: Endpoint) {
    && ep.cfg == Settings(32) && ep.snd.una == 1 && ep.snd.nxt == 2 && ep.snd.queue == [] && |ep.snd.buf| == 1
    && ep.snd.buf[0].sn == 1 && ep.snd.buf[0].acked && !ep.ctl.askSend && !ep.ctl.askTell
  }

  lemma {:induction false} HearsAck(ep: Endpoint, x: u8, y: u8)
    requires SentTwo(ep, 32, x, y)
    ensures var ep1 := InputAll(ep, [AckOf(0, 1)], true);
            OneAcked(ep1) && ep1.rcv == ep.rcv && ep1.ctl.rmt_wnd == 0 && AnyUrgent(ep, [AckOf(0, 1)], true)
  {
    var w := AckOf(0, 1);
    assert [w][1..] == [];
    var e1 := InputSegment(ep, w, true);
    assert ep.snd.buf[1..][1..] == [];
    assert UnaCount(ep.snd.buf[1..], 1) == 0 && UnaCount(ep.snd.buf, 1) == 1;
    assert InputAll(e1, [], true) == e1;
  }

  // Settling changes the round-trip estimate only.
  lemma {:induction false} SettlesPlain(ep: Endpoint, before: u32, acks: seq<u32>)
    requires ep.cfg.Valid() && ep.cfg.nocwnd
    ensures var ep1 := Settle(ep, before, acks, true, 0);
            && ep1.cfg == ep.cfg && ep1.snd == ep.snd && ep1.rcv == ep.rcv && ep1.ctl.rmt_wnd == ep.ctl.rmt_wnd
            && ep1.ctl.askSend == ep.ctl.askSend && ep1.ctl.askTell == ep.ctl.askTell
            && ep1.ctl.probe_wait == ep.ctl.probe_wait
  {
  }

  lemma {:induction false} AckedFlush(ep: Endpoint, full: bool)
    requires OneAcked(ep) && ep.rcv.acks == [] && (ep.ctl.rmt_wnd == 0 ==> ep.ctl.probe_wait == 0)
    ensures var f := KcpSpec.Flush(ep, full, 0, Always(0));
            OneAcked(f.ep) && f.ep.rcv == ep.rcv && f.ep.ctl.rmt_wnd == ep.ctl.rmt_wnd && f.emits == []
  {
    var c := Probe(ep.ctl, 0);
    SlideNone(ep.snd, 7);
    AckedPass(ep.snd.buf, PassEnv(ep, c), Always(0));
    assert AckWires(ep, 0) == [];
  }

  function Heard(z: u8): Receiver { Receiver(map[], [FromWire(PushOf(1, 0, z))], 1, [Ack(0, 0)]) }

  // The old datagram of b arrives at a, and makes it take the window of b for open.
  lemma {:induction false} HearsOld(ep: Endpoint, z: u8)
    requires OneAcked(ep) && ep.rcv == EMPTY
    ensures var ws := [PushOf(1, 0, z)]; var ep1 := InputAll(ep, ws, true);
            OneAcked(ep1) && ep1.rcv == Heard(z) && ep1.ctl.rmt_wnd == 1 && !AnyUrgent(ep, ws, true)
  {
    var w := PushOf(1, 0, z);
    TakesFirst(ep.rcv, 32, 1, z);
    assert [w][1..] == [];
    var e1 := InputSegment(ep, w, true);
    assert UnaCount(ep.snd.buf, 0) == 0;
    assert OneAcked(e1) && !Urgent(ep, w);
    assert InputAll(e1, [], true) == e1 && !AnyUrgent(e1, [], true);
  }

  lemma {:induction false} AnswersOld(ep: Endpoint, z: u8)
    requires OneAcked(ep) && ep.rcv == Heard(z) && ep.ctl.rmt_wnd == 1
    ensures var f := KcpSpec.Flush(ep, false, 0, Always(0));
            OneAcked(f.ep) && f.ep.rcv == Heard(z).(acks := []) && f.ep.ctl.rmt_wnd == 1 && f.emits == [AckOf(31, 0)]
  {
    SlideNone(ep.snd, 7);
    assert AckWires(ep, 0) == [] && AckWires(ep, 1) == [AckOf(31, 0)];
  }

  // b has nothing to send and nothing in flight.
  predicate Idle(ep: Endpoint) {
    && ep.cfg == Settings(1) && ep.snd == Sender([], [], 1, 1) && ep.ctl.rmt_wnd == 31 && !ep.ctl.askSend
  }

  lemma {:induction false} HearsLast(ep: Endpoint, z: u8)
    requires SentOne(ep, 1, z)
    ensures var ep1 := InputAll(ep, [AckOf(31, 0)], true);
            Idle(ep1) && ep1.rcv == ep.rcv && !ep1.ctl.askTell && AnyUrgent(ep, [AckOf(31, 0)], true)
  {
    var w := AckOf(31, 0);
    assert [w][1..] == [] && ep.snd.buf[1..] == [];
    var e1 := InputSegment(ep, w, true);
    assert UnaCount(ep.snd.buf[1..], 1) == 0 && UnaCount(ep.snd.buf, 1) == 1;
    assert e1.snd == Sender([], [], 1, 1);
    assert InputAll(e1, [], true) == e1;
  }

  lemma {:induction false} IdleFlush(ep: Endpoint, full: bool)
    requires Idle(ep) && ep.rcv.acks == []
    ensures var f := KcpSpec.Flush(ep, full, 0, Always(0));
            && Idle(f.ep) && f.ep.rcv == ep.rcv && !f.ep.ctl.askTell
            && (!ep.ctl.askTell ==> f.emits == [])
  {
    var c := Probe(ep.ctl, 0);
    SlideNone(ep.snd, 7);
    AckedPass([], PassEnv(ep, c), Always(0));
    assert AckWires(ep, 0) == [];
  }

  // The application of b takes both messages; b then means to tell that its window is open.
  lemma {:induction false} RecvFirst(ep: Endpoint, x: u8, y: u8)
    requires Idle(ep) && !ep.ctl.askTell && ep.rcv == Held(x, y).(acks := [])
    ensures var ep1 := KcpSpec.Recv(ep, 1).0;
            Idle(ep1) && !ep1.ctl.askTell && ep1.rcv == Receiver(map[], [FromWire(PushOf(32, 1, y))], 2, [])
  {
    var q := ep.rcv.queue;
    assert q[..1] == q && q[1..] == [];
    assert Join(q) == q[0].data + Join(q[1..]) == [x];
    var r1 := ep.rcv.(queue := []);
    var r2 := Receiver(map[], [FromWire(PushOf(32, 1, y))], 2, []);
    assert r1.buf - {1} == map[] && [] + [r1.buf[1]] == r2.queue;
    assert MoveReady(r1, 1) == MoveReady(r2, 1) == r2;
  }

  lemma {:induction false} RecvSecond(ep: Endpoint, y: u8)
    requires Idle(ep) && ep.rcv == Receiver(map[], [FromWire(PushOf(32, 1, y))], 2, [])
    ensures var ep1 := KcpSpec.Recv(ep, 1).0; Idle(ep1) && ep1.rcv == Receiver(map[], [], 2, [])
  {
    var q := ep.rcv.queue;
    assert q[..1] == q && q[1..] == [];
    assert Join(q) == q[0].data + Join(q[1..]) == [y];
  }

  // ---- the same over the network -------------------------------------------------------------

  // Some run leads from s to s1.
  ghost predicate Gets(s: Pair, s1: Pair) {
    forall k {:trigger Asked(k)} :: Asked(k) ==> exists acts :: IsRun(s, acts) && After(s, acts) == s1
  }

  lemma {:induction false} GetsOn(s: Pair, s1: Pair, s2: Pair)
    requires Gets(s, s1) && Gets(s1, s2)
    ensures Gets(s, s2)
  {
    assert Asked(0);
    var a :| IsRun(s, a) && After(s, a) == s1;
    var b :| IsRun(s1, b) && After(s1, b) == s2;
    RunThen(s, a, s1, b, s2);
  }

  lemma {:induction false} GetsStep(s: Pair, act: Action)
    requires Sane(s) && Timely(s, act)
    ensures Possible(s, act) && Gets(s, Next(s, act)) && Sane(Next(s, act))
  {
    SaneOn(s, act);
    OneStep(s, act);
  }

  // A datagram that carries these segments is on the network.
  predicate Carrying(pkt: Packet, ws: seq<Wire>) {
    Decode(7, pkt.bytes) == (ws, 0) && |pkt.stamps| == |ws| && |pkt.bytes| >= OVERHEAD
  }

  ghost predicate OnNet(net: set<Packet>, ws: seq<Wire>) {
    exists pkt :: pkt in net && Carrying(pkt, ws)
  }

  lemma {:induction false} OneDatagram(ws: seq<Wire>, mtu: nat)
    requires |EncodeAll(ws)| <= mtu
    ensures PutAll(ws, mtu) == Packer([], EncodeAll(ws))
  {
    if ws != [] {
      var n := |ws| - 1;
      EncodeAllAppend(ws[..n], ws[n]);
      assert ws[..n] + [ws[n]] == ws;
      OneDatagram(ws[..n], mtu);
    }
  }

  lemma {:induction false} PutOnNet(p: Peer, ws: seq<Wire>)
    requires p.ep.cfg.conv == 7 && p.ep.cfg.mtu == MTU && ws != [] && |EncodeAll(ws)| <= MTU
    requires forall w <- ws :: KcpWire.Sendable(7, w)
    ensures OnNet(Packets(p, ws), ws)
  {
    OneDatagram(ws, MTU);
    DecodeEncoded(7, ws);
    var d := EncodeAll(ws);
    assert |d| >= OVERHEAD by { assert EncodeAll(ws) == Encode(ws[0]) + EncodeAll(ws[1..]); }
    assert d in Pack(ws, MTU);
    assert Carrying(PacketOf(p, d), ws);
  }

  lemma {:induction false} OneByte(w: Wire)
    requires |w.data| <= 1
    ensures |EncodeAll([w])| <= 25 && forall x: Wire :: |x.data| <= 1 ==> |EncodeAll([w, x])| <= 50
  {
    assert EncodeAll([w]) == Encode(w) + EncodeAll([w][1..]);
    forall x: Wire | |x.data| <= 1 ensures |EncodeAll([w, x])| <= 50 {
      assert [w, x][1..] == [x] && [x][1..] == [];
      assert EncodeAll([w, x]) == Encode(w) + EncodeAll([x]);
      assert EncodeAll([x]) == Encode(x) + EncodeAll([x][1..]);
    }
  }

  // The counters are small enough to be the words that stand for them.
  predicate Early(p: Peer) {
    p.nxt == p.ep.snd.nxt < HALF
  }

  lemma {:induction false} FlushEarly(p: Peer, ep: Endpoint)
    requires Early(p) && p.nxt <= ep.snd.nxt < HALF
    ensures Early(FlushPeer(p, ep)) && FlushPeer(p, ep).ep == ep
  {
  }

  lemma {:induction false} TookNxt(p: Peer, ws: seq<Wire>, stamps: seq<Stamp>)
    requires |ws| == |stamps|
    ensures PeerAll(p, ws, stamps, true).nxt == p.nxt
    decreases ws
  {
    if ws != [] { TookNxt(PeerSegment(p, ws[0], stamps[0], true), ws[1..], stamps[1..]); }
  }

  // Segments that fit one datagram.
  predicate Compact(ws: seq<Wire>) {
    ws != [] && |EncodeAll(ws)| <= MTU && forall w <- ws :: KcpWire.Sendable(7, w)
  }

  lemma {:induction false} DeliverEarly(p: Peer, pkt: Packet, ws: seq<Wire>, ep: Endpoint)
    requires Early(p) && p.ep.cfg.Valid() && p.ep.cfg.conv == 7 && Carrying(pkt, ws) && p.nxt <= ep.snd.nxt < HALF
    requires ep == Input(p.ep, pkt.bytes, true, true, CALM).0
    ensures var p1 := DeliverStep(p, pkt, true, true, CALM).0; Early(p1) && p1.ep == ep
  {
    var p1 := PeerAll(p, ws, pkt.stamps, true);
    TookNxt(p, ws, pkt.stamps);
    InputNxt(p.ep, ws);
    FlushEarly(p1, ep);
  }

  lemma {:induction false} DeliverSends(p: Peer, pkt: Packet, ws: seq<Wire>, emits: seq<Wire>)
    requires p.ep.cfg.Valid() && p.ep.cfg.conv == 7 && p.ep.cfg.mtu == MTU && Carrying(pkt, ws) && Compact(emits)
    requires emits == Input(p.ep, pkt.bytes, true, true, CALM).2
    ensures OnNet(DeliverStep(p, pkt, true, true, CALM).1, emits)
  {
    InputCfg(p.ep, ws);
    PutOnNet(PeerAll(p, ws, pkt.stamps, true), emits);
  }

  lemma {:induction false} InputCfg(ep: Endpoint, ws: seq<Wire>)
    ensures InputAll(ep, ws, true).cfg == ep.cfg
  {
  }

  lemma {:induction false} InputNxt(ep: Endpoint, ws: seq<Wire>)
    ensures InputAll(ep, ws, true).snd.nxt == ep.snd.nxt
    decreases ws
  {
    if ws != [] { InputNxt(InputSegment(ep, ws[0], true), ws[1..]); }
  }

  // ---- single steps of the run --------------------------------------------------------------------

  ghost predicate Fine(s: Pair) {
    Sane(s) && Early(s.a) && Early(s.b) && s.a.ep.cfg == Settings(32) && s.b.ep.cfg == Settings(1)
  }

  lemma {:induction false} DoSendA(s: Pair, msg: Payload) returns (s1: Pair)
    requires Fine(s)
    ensures Gets(s, s1) && Fine(s1) && s1.b == s.b && s1.toA == s.toA && s1.toB == s.toB
    ensures s1.a.ep == KcpSpec.Send(s.a.ep, msg).0
  {
    GetsStep(s, AtA(Send(msg)));
    s1 := Next(s, AtA(Send(msg)));
  }

  lemma {:induction false} DoSendB(s: Pair, msg: Payload) returns (s1: Pair)
    requires Fine(s)
    ensures Gets(s, s1) && Fine(s1) && s1.a == s.a && s1.toA == s.toA && s1.toB == s.toB
    ensures s1.b.ep == KcpSpec.Send(s.b.ep, msg).0
  {
    GetsStep(s, AtB(Send(msg)));
    s1 := Next(s, AtB(Send(msg)));
  }

  lemma {:induction false} DoRecvB(s: Pair) returns (s1: Pair)
    requires Fine(s)
    ensures Gets(s, s1) && Fine(s1) && s1.a == s.a && s1.toA == s.toA && s1.toB == s.toB
    ensures s1.b.ep == KcpSpec.Recv(s.b.ep, 1).0
  {
    GetsStep(s, AtB(Recv(1)));
    s1 := Next(s, AtB(Recv(1)));
  }

  lemma {:induction false} DoFlushA(s: Pair, full: bool, ep: Endpoint, emits: seq<Wire>) returns (s1: Pair)
    requires Fine(s) && KcpSpec.Flush(s.a.ep, full, 0, Always(0)).ep == ep && s.a.nxt <= ep.snd.nxt < HALF
    requires KcpSpec.Flush(s.a.ep, full, 0, Always(0)).emits == emits
    ensures Gets(s, s1) && Fine(s1) && s1.b == s.b && s1.toA == s.toA && s1.a.ep == ep
    ensures Compact(emits) ==> OnNet(s1.toB, emits)
  {
    GetsStep(s, AtA(Flush(full, CALM)));
    s1 := Next(s, AtA(Flush(full, CALM)));
    FlushEarly(s.a, ep);
    if Compact(emits) { PutOnNet(s.a, emits); }
  }

  lemma {:induction false} DoFlushB(s: Pair, full: bool, ep: Endpoint, emits: seq<Wire>) returns (s1: Pair)
    requires Fine(s) && KcpSpec.Flush(s.b.ep, full, 0, Always(0)).ep == ep && s.b.nxt <= ep.snd.nxt < HALF
    requires KcpSpec.Flush(s.b.ep, full, 0, Always(0)).emits == emits
    ensures Gets(s, s1) && Fine(s1) && s1.a == s.a && s1.toB == s.toB && s.toA <= s1.toA && s1.b.ep == ep
    ensures Compact(emits) ==> OnNet(s1.toA, emits)
  {
    GetsStep(s, AtB(Flush(full, CALM)));
    s1 := Next(s, AtB(Flush(full, CALM)));
    FlushEarly(s.b, ep);
    if Compact(emits) { PutOnNet(s.b, emits); }
  }

  // The endpoint that takes in ws ends as ep and sends emits.
  ghost predicate Yields(ep0: Endpoint, ws: seq<Wire>, ep: Endpoint, emits: seq<Wire>) {
    ep0.cfg.Valid() && ep0.cfg.conv == 7 &&
    forall pkt: Packet :: Carrying(pkt, ws) ==> Input(ep0, pkt.bytes, true, true, CALM) == (ep, 0, emits)
  }

  // What was sent early is fresh.
  lemma {:induction false} CanDeliver(s: Pair, pkt: Packet, ws: seq<Wire>)
    requires s.a.ep.cfg.Valid() && s.a.ep.cfg.conv == 7 && Early(s.a) && Early(s.b) && pkt in s.toA && Carrying(pkt, ws)
    ensures Enabled(s, Deliver(pkt, true, true, CALM))
  {
  }

  // One endpoint takes in a datagram.
  lemma {:induction false} TakesDatagram(p: Peer, pkt: Packet, ws: seq<Wire>, ep: Endpoint, emits: seq<Wire>)
    requires Early(p) && p.ep.cfg.mtu == MTU && Carrying(pkt, ws) && Yields(p.ep, ws, ep, emits)
    requires p.nxt <= ep.snd.nxt < HALF
    ensures var (p1, out) := DeliverStep(p, pkt, true, true, CALM);
            Early(p1) && p1.ep == ep && (Compact(emits) ==> OnNet(out, emits))
  {
    DeliverEarly(p, pkt, ws, ep);
    if Compact(emits) { DeliverSends(p, pkt, ws, emits); }
  }

  lemma {:induction false} OnNetStill(net: set<Packet>, more: set<Packet>, ws: seq<Wire>)
    requires OnNet(more, ws)
    ensures OnNet(net + more, ws)
  {
    var pkt :| pkt in more && Carrying(pkt, ws);
    assert pkt in net + more;
  }

  lemma {:induction false} NextA(s: Pair, pkt: Packet) returns (p1: Peer, out: set<Packet>)
    requires Possible(s, AtA(Deliver(pkt, true, true, CALM)))
    ensures (p1, out) == DeliverStep(s.a, pkt, true, true, CALM)
    ensures Next(s, AtA(Deliver(pkt, true, true, CALM))) == Pair(p1, s.b, s.toB + out, s.toA)
  {
    var r := DeliverStep(s.a, pkt, true, true, CALM);
    p1, out := r.0, r.1;
  }

  lemma {:induction false} DoDeliverA(s: Pair, ws: seq<Wire>, ep: Endpoint, emits: seq<Wire>) returns (s1: Pair)
    requires Fine(s) && OnNet(s.toA, ws) && Yields(s.a.ep, ws, ep, emits) && ep.cfg == Settings(32)
    requires s.a.nxt <= ep.snd.nxt < HALF
    ensures Gets(s, s1) && Fine(s1) && s1.b == s.b && s1.toA == s.toA && s.toB <= s1.toB && s1.a.ep == ep
    ensures Compact(emits) ==> OnNet(s1.toB, emits)
  {
    var pkt :| pkt in s.toA && Carrying(pkt, ws);
    CanDeliver(s, pkt, ws);
    GetsStep(s, AtA(Deliver(pkt, true, true, CALM)));
    var p1, out := NextA(s, pkt);
    TakesDatagram(s.a, pkt, ws, ep, emits);
    s1 := Pair(p1, s.b, s.toB + out, s.toA);
    if Compact(emits) { OnNetStill(s.toB, out, emits); }
  }

  lemma {:induction false} NextB(s: Pair, pkt: Packet) returns (p1: Peer, out: set<Packet>)
    requires Possible(s, AtB(Deliver(pkt, true, true, CALM)))
    ensures (p1, out) == DeliverStep(s.b, pkt, true, true, CALM)
    ensures Next(s, AtB(Deliver(pkt, true, true, CALM))) == Pair(s.a, p1, s.toB, s.toA + out)
  {
    var r := DeliverStep(s.b, pkt, true, true, CALM);
    p1, out := r.0, r.1;
  }

  lemma {:induction false} DoDeliverB(s: Pair, ws: seq<Wire>, ep: Endpoint, emits: seq<Wire>) returns (s1: Pair)
    requires Fine(s) && OnNet(s.toB, ws) && Yields(s.b.ep, ws, ep, emits) && ep.cfg == Settings(1)
    requires s.b.nxt <= ep.snd.nxt < HALF
    ensures Gets(s, s1) && Fine(s1) && s1.a == s.a && s1.toB == s.toB && s.toA <= s1.toA && s1.b.ep == ep
    ensures Compact(emits) ==> OnNet(s1.toA, emits)
  {
    var pkt :| pkt in s.toB && Carrying(pkt, ws);
    CanDeliver(Swap(s), pkt, ws);
    GetsStep(s, AtB(Deliver(pkt, true, true, CALM)));
    var p1, out := NextB(s, pkt);
    TakesDatagram(s.b, pkt, ws, ep, emits);
    s1 := Pair(s.a, p1, s.toB, s.toA + out);
    if Compact(emits) { OnNetStill(s.toA, out, emits); }
  }

  lemma {:induction false} YieldsBy(ep: Endpoint, ws: seq<Wire>, ep2: Endpoint, f: Flushed)
    requires ep.cfg.Valid() && ep.cfg.conv == 7 && ws != []
    requires ep2 == Settle(InputAll(ep, ws, true), ep.snd.una, AckTimes(ws), true, 0)
    requires FlushDue(ep2, AnyUrgent(ep, ws, true), true)
    requires f == KcpSpec.Flush(ep2, AnyUrgent(ep, ws, true), 0, Always(0))
    ensures Yields(ep, ws, f.ep, f.emits)
  {
    forall pkt: Packet | Carrying(pkt, ws) ensures Input(ep, pkt.bytes, true, true, CALM) == (f.ep, 0, f.emits) {
      InputParts(ep, pkt.bytes, true, true, CALM);
    }
  }

  lemma {:induction false} CompactOne(w: Wire)
    requires KcpWire.Sendable(7, w) && |w.data| <= 1
    ensures Compact([w])
  {
    OneByte(w);
  }

  // b sends, to begin with, a piece of its own.
  lemma {:induction false} Part1(z: u8) returns (s: Pair)
    ensures var s0 := Init(Settings(32), Settings(1)); Gets(s0, s) && Fine(s) && s.a.ep == NewEndpoint(Settings(32))
    ensures SentOne(s.b.ep, 1, z) && s.b.ep.rcv == EMPTY && OnNet(s.toA, [PushOf(1, 0, z)])
  {
    var s0 := Init(Settings(32), Settings(1));
    InitInv(Settings(32), Settings(1));
    var s1 := DoSendB(s0, [z]);
    SendsOne(1, z);
    FlushesOne(1, z);
    var f := KcpSpec.Flush(s1.b.ep, true, 0, Always(0));
    CompactOne(PushOf(1, 0, z));
    s := DoFlushB(s1, true, f.ep, f.emits);
    GetsOn(s0, s1, s);
  }

  // a sends two.
  lemma {:induction false} Part2(s0: Pair, x: u8, y: u8) returns (s: Pair)
    requires Fine(s0) && s0.a.ep == NewEndpoint(Settings(32))
    ensures Gets(s0, s) && Fine(s) && s.b == s0.b && s.toA == s0.toA
    ensures SentTwo(s.a.ep, 32, x, y) && s.a.ep.rcv == EMPTY && OnNet(s.toB, [PushOf(32, 0, x), PushOf(32, 1, y)])
  {
    var s1 := DoSendA(s0, [x]);
    SendsOne(32, x);
    var s2 := DoSendA(s1, [y]);
    SendsTwo(x, y);
    FlushesTwo(x, y);
    OneByte(PushOf(32, 0, x));
    var f := KcpSpec.Flush(s2.a.ep, true, 0, Always(0));
    s := DoFlushA(s2, true, f.ep, f.emits);
    GetsOn(s0, s1, s2);
    GetsOn(s0, s2, s);
  }

  lemma {:induction false} NoAckTimes(ws: seq<Wire>)
    requires forall w <- ws :: w.cmd != CMD_ACK
    ensures AckTimes(ws) == []
    decreases ws
  {
    if ws != [] { NoAckTimes(ws[1..]); }
  }

  // b takes both in and answers.
  lemma {:induction false} Part3(s0: Pair, x: u8, y: u8, z: u8) returns (s: Pair)
    requires Fine(s0) && SentOne(s0.b.ep, 1, z) && s0.b.ep.rcv == EMPTY
    requires OnNet(s0.toB, [PushOf(32, 0, x), PushOf(32, 1, y)])
    ensures Gets(s0, s) && Fine(s) && s.a == s0.a && s0.toA <= s.toA
    ensures SentOne(s.b.ep, 1, z) && s.b.ep.rcv == Held(x, y).(acks := []) && OnNet(s.toA, [AckOf(0, 1)])
  {
    var ws := [PushOf(32, 0, x), PushOf(32, 1, y)];
    var ep := s0.b.ep;
    TakesTwo(ep, x, y, z);
    NoAckTimes(ws);
    var ep2 := Settle(InputAll(ep, ws, true), ep.snd.una, AckTimes(ws), true, 0);
    SettlesPlain(InputAll(ep, ws, true), ep.snd.una, AckTimes(ws));
    AnswersTwo(ep2, x, y, z);
    var f := KcpSpec.Flush(ep2, false, 0, Always(0));
    YieldsBy(ep, ws, ep2, f);
    CompactOne(AckOf(0, 1));
    s := DoDeliverB(s0, ws, f.ep, f.emits);
  }

  // a hears the answer, and then what b sent in the beginning.
  lemma {:induction false} Part4(s0: Pair, x: u8, y: u8) returns (s: Pair)
    requires Fine(s0) && SentTwo(s0.a.ep, 32, x, y) && s0.a.ep.rcv == EMPTY && OnNet(s0.toA, [AckOf(0, 1)])
    ensures Gets(s0, s) && Fine(s) && s.b == s0.b && s.toA == s0.toA && OneAcked(s.a.ep) && s.a.ep.rcv == EMPTY
  {
    var ws, ep := [AckOf(0, 1)], s0.a.ep;
    HearsAck(ep, x, y);
    var ep2 := Settle(InputAll(ep, ws, true), ep.snd.una, AckTimes(ws), true, 0);
    SettlesPlain(InputAll(ep, ws, true), ep.snd.una, AckTimes(ws));
    ProbeKept(ep, ws);
    AckedFlush(ep2, true);
    var f := KcpSpec.Flush(ep2, true, 0, Always(0));
    YieldsBy(ep, ws, ep2, f);
    s := DoDeliverA(s0, ws, f.ep, f.emits);
  }

  lemma {:induction false} ProbeKept(ep: Endpoint, ws: seq<Wire>)
    ensures InputAll(ep, ws, true).ctl.probe_wait == ep.ctl.probe_wait
    decreases ws
  {
    if ws != [] { ProbeKept(InputSegment(ep, ws[0], true), ws[1..]); }
  }

  lemma {:induction false} Part5(s0: Pair, z: u8) returns (s: Pair)
    requires Fine(s0) && OneAcked(s0.a.ep) && s0.a.ep.rcv == EMPTY && OnNet(s0.toA, [PushOf(1, 0, z)])
    ensures Gets(s0, s) && Fine(s) && s.b == s0.b && OnNet(s.toB, [AckOf(31, 0)])
    ensures OneAcked(s.a.ep) && s.a.ep.rcv == Heard(z).(acks := []) && s.a.ep.ctl.rmt_wnd == 1
  {
    var ws, ep := [PushOf(1, 0, z)], s0.a.ep;
    HearsOld(ep, z);
    NoAckTimes(ws);
    var ep2 := Settle(InputAll(ep, ws, true), ep.snd.una, AckTimes(ws), true, 0);
    SettlesPlain(InputAll(ep, ws, true), ep.snd.una, AckTimes(ws));
    AnswersOld(ep2, z);
    var f := KcpSpec.Flush(ep2, false, 0, Always(0));
    YieldsBy(ep, ws, ep2, f);
    CompactOne(AckOf(31, 0));
    s := DoDeliverA(s0, ws, f.ep, f.emits);
  }

  // b has its own piece acknowledged.
  lemma {:induction false} Part6(s0: Pair, x: u8, y: u8, z: u8) returns (s: Pair)
    requires Fine(s0) && SentOne(s0.b.ep, 1, z) && s0.b.ep.rcv == Held(x, y).(acks := [])
    requires OnNet(s0.toB, [AckOf(31, 0)])
    ensures Gets(s0, s) && Fine(s) && s.a == s0.a && Idle(s.b.ep) && !s.b.ep.ctl.askTell
    ensures s.b.ep.rcv == Held(x, y).(acks := [])
  {
    var ws, ep := [AckOf(31, 0)], s0.b.ep;
    HearsLast(ep, z);
    var ep2 := Settle(InputAll(ep, ws, true), ep.snd.una, AckTimes(ws), true, 0);
    SettlesPlain(InputAll(ep, ws, true), ep.snd.una, AckTimes(ws));
    IdleFlush(ep2, true);
    var f := KcpSpec.Flush(ep2, true, 0, Always(0));
    YieldsBy(ep, ws, ep2, f);
    s := DoDeliverB(s0, ws, f.ep, f.emits);
  }

  // The application of b takes both messages, and the word of the open window is on the network.
  lemma {:induction false} Part7(s0: Pair, x: u8, y: u8) returns (s: Pair)
    requires Fine(s0) && Idle(s0.b.ep) && !s0.b.ep.ctl.askTell && s0.b.ep.rcv == Held(x, y).(acks := [])
    ensures Gets(s0, s) && Fine(s) && s.a == s0.a && Idle(s.b.ep) && !s.b.ep.ctl.askTell
    ensures s.b.ep.rcv == Receiver(map[], [], 2, [])
  {
    var s1 := DoRecvB(s0);
    RecvFirst(s0.b.ep, x, y);
    var s2 := DoRecvB(s1);
    RecvSecond(s1.b.ep, y);
    IdleFlush(s2.b.ep, false);
    var f := KcpSpec.Flush(s2.b.ep, false, 0, Always(0));
    s := DoFlushB(s2, false, f.ep, f.emits);
    GetsOn(s0, s1, s2);
    GetsOn(s0, s2, s);
  }

  // a is given another message.
  lemma {:induction false} Part8(s0: Pair, z: u8, d: u8) returns (s: Pair)
    requires Fine(s0) && OneAcked(s0.a.ep) && s0.a.ep.rcv == Heard(z).(acks := []) && s0.a.ep.ctl.rmt_wnd == 1
    requires Idle(s0.b.ep) && !s0.b.ep.ctl.askTell && s0.b.ep.rcv == Receiver(map[], [], 2, [])
    ensures Gets(s0, s) && Sane(s) && Deadlocked(s)
  {
    s := DoSendA(s0, [d]);
    SendsMore(s0.a.ep, d);
  }

  ghost predicate EndsDeadlocked(acts: seq<Action>) {
    var s := Init(Settings(32), Settings(1)); IsRun(s, acts) && Deadlocked(After(s, acts))
  }

  // The deadlock can be reached: one datagram overtaken by later ones and one lost are enough.
  lemma {:induction false} DeadlockReached()
    ensures exists acts :: EndsDeadlocked(acts)
  {
    var s := GetsDeadlocked(1, 2, 3, 4);
    assert Asked(0);
    var acts :| IsRun(Init(Settings(32), Settings(1)), acts) && After(Init(Settings(32), Settings(1)), acts) == s;
    assert EndsDeadlocked(acts);
  }

  lemma {:induction false} GetsDeadlocked(x: u8, y: u8, z: u8, d: u8) returns (s: Pair)
    ensures Gets(Init(Settings(32), Settings(1)), s) && Deadlocked(s)
  {
    var s0 := Init(Settings(32), Settings(1));
    var s1 := Part1(z);
    var s2 := Part2(s1, x, y);
    var s3 := Part3(s2, x, y, z);
    var s4 := Part4(s3, x, y);
    var s5 := Part5(s4, z);
    var s6 := Part6(s5, x, y, z);
    var s7 := Part7(s6, x, y);
    s := Part8(s7, z, d);
    GetsOn(s0, s1, s2);
    GetsOn(s0, s2, s3);
    GetsOn(s0, s3, s4);
    GetsOn(s0, s4, s5);
    GetsOn(s0, s5, s6);
    GetsOn(s0, s6, s7);
    GetsOn(s0, s7, s);
  }
}
