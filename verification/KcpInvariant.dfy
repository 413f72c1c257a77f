/** What every operation of one endpoint keeps, whatever bytes the network delivers
    and across wraparound of the 32-bit sequence numbers.
 */
module KcpInvariant {
  import opened Words
  import opened KcpWire
  import opened KcpSpec

  // An entry of the send window.
  predicate Entry(cfg: Config, seg: Segment, sn: u32)
    requires cfg.Valid()
  {
    && seg.sn == sn && seg.conv == cfg.conv && seg.cmd == CMD_PUSH
    && |seg.data| <= cfg.Mss()
    && (seg.acked ==> seg.data == [])
  }

  // The send window holds exactly the numbers from una up to nxt, in order.
  ghost predicate SenderInv(cfg: Config, s: Sender)
    requires cfg.Valid()
  {
    && |s.buf| <= MAX_WINDOW
    && s.nxt == Add32(s.una, |s.buf|)
    && (forall k :: 0 <= k < |s.buf| ==> Entry(cfg, s.buf[k], Add32(s.una, k)))
    && (forall seg <- s.queue :: |seg.data| <= cfg.Mss() && !seg.acked && seg.xmit == 0)
  }

  // The out-of-order store holds distinct numbers of the receive window; the receive
  // queue is consecutive, ends just before nxt and fits the window.
  ghost predicate ReceiverInv(wnd: u32, r: Receiver)
    requires wnd <= HALF
  {
    && (forall sn :: sn in r.buf ==> r.buf[sn].sn == sn && 0 <= TimeDiff(sn, r.nxt) < wnd)
    && |r.queue| <= wnd
    && (forall k :: 0 <= k < |r.queue| ==> r.queue[k].sn == Sub32(r.nxt, |r.queue| - k))
  }

  // The next expected segment never waits in the store while the queue has room.
  predicate Settled(wnd: u32, r: Receiver) {
    r.nxt in r.buf ==> |r.queue| == wnd
  }

  ghost predicate EndpointInv(ep: Endpoint) {
    && ep.cfg.Valid()
    && SenderInv(ep.cfg, ep.snd)
    && ReceiverInv(ep.cfg.rcv_wnd, ep.rcv)
    && Settled(ep.cfg.rcv_wnd, ep.rcv)
    && ep.ctl.rmt_wnd <= MAX_WINDOW && !ep.ctl.askSend
    && 0 <= ep.ctl.srtt < HALF && 0 <= ep.ctl.rttvar < HALF
  }

  // ---- sending side -----------------------------------------------------------

  // A cumulative acknowledgement releases exactly the numbers before it.
  lemma {:induction false} UnaCountExact(buf: seq<Segment>, first: u32, una: u32)
    requires |buf| <= MAX_WINDOW
    requires forall k :: 0 <= k < |buf| ==> buf[k].sn == Add32(first, k)
    ensures UnaCount(buf, una) == Max(0, Min(TimeDiff(una, first), |buf|))
  {
    if buf != [] && TimeDiff(una, first) > 0 {
      assert buf[0].sn == first;
      assert forall k :: 0 <= k < |buf[1..]| ==> buf[1..][k] == buf[k + 1];
      UnaCountExact(buf[1..], Add32(first, 1), una);
    } else if buf != [] {
      assert buf[0].sn == first;
    }
  }

  lemma {:induction false} DropAckedKeeps(cfg: Config, s: Sender, una: u32)
    requires cfg.Valid() && SenderInv(cfg, s)
    ensures var n := Max(0, Min(TimeDiff(una, s.una), |s.buf|));
            DropAcked(s, una) == s.(buf := s.buf[n..], una := Add32(s.una, n))
    ensures SenderInv(cfg, DropAcked(s, una))
  {
    UnaCountExact(s.buf, s.una, una);
    var n := UnaCount(s.buf, una);
    var s1 := DropAcked(s, una);
    if n < |s.buf| {
      assert Entry(cfg, s.buf[n], Add32(s.una, n));
    }
    forall k | 0 <= k < |s1.buf| ensures Entry(cfg, s1.buf[k], Add32(s1.una, k)) {
      assert Entry(cfg, s.buf[n + k], Add32(s.una, n + k));
    }
  }

  lemma {:induction false} MarkAckedKeeps(cfg: Config, s: Sender, sn: u32)
    requires cfg.Valid() && SenderInv(cfg, s)
    ensures SenderInv(cfg, MarkAcked(s, sn))
  {
    var s1 := MarkAcked(s, sn);
    forall k | 0 <= k < |s1.buf| ensures Entry(cfg, s1.buf[k], Add32(s1.una, k)) {
      assert Entry(cfg, s.buf[k], Add32(s.una, k));
    }
  }

  lemma {:induction false} CountSkipsKeeps(cfg: Config, s: Sender, sn: u32, ts: u32)
    requires cfg.Valid() && SenderInv(cfg, s)
    ensures SenderInv(cfg, CountSkips(s, sn, ts))
  {
    var s1 := CountSkips(s, sn, ts);
    forall k | 0 <= k < |s1.buf| ensures Entry(cfg, s1.buf[k], Add32(s1.una, k)) {
      assert Entry(cfg, s.buf[k], Add32(s.una, k));
    }
  }

  lemma {:induction false} SlideKeeps(cfg: Config, s: Sender, cwnd: u32)
    requires cfg.Valid() && SenderInv(cfg, s) && cwnd <= MAX_WINDOW
    ensures SenderInv(cfg, Slide(s, Slots(s, cwnd), cfg.conv))
  {
    var n := Slots(s, cwnd);
    var s1 := Slide(s, n, cfg.conv);
    forall k | 0 <= k < |s1.buf| ensures Entry(cfg, s1.buf[k], Add32(s1.una, k)) {
      if k < |s.buf| {
        assert Entry(cfg, s.buf[k], Add32(s.una, k));
      } else {
        assert s1.buf[k] == Numbered(s.queue[k - |s.buf|], cfg.conv, Add32(s.nxt, k - |s.buf|));
      }
    }
  }

  // b is a with only its transmission bookkeeping changed.
  predicate SameEntry(a: Segment, b: Segment) {
    b == a.(wnd := b.wnd, ts := b.ts, una := b.una, rto := b.rto, xmit := b.xmit, resendts := b.resendts,
            fastack := b.fastack)
  }

  // A transmission pass changes only bookkeeping and puts only unacknowledged entries on
  // the wire, with the current cumulative acknowledgement and window.
  ghost predicate TxFaithful(buf: seq<Segment>, t: Tx, e: TxEnv)
    requires |t.done| == |buf|
  {
    && (forall k :: 0 <= k < |buf| ==> SameEntry(buf[k], t.done[k]))
    && (forall w <- t.emits :: exists k :: 0 <= k < |buf| && !buf[k].acked && w == ToWire(t.done[k]))
    && (forall w <- t.emits :: w.una == e.una && w.wnd == e.wnd)
  }

  lemma {:induction false} TxAllFaithful(buf: seq<Segment>, e: TxEnv, now: nat -> u32)
    ensures TxFaithful(buf, TxAll(buf, e, now), e)
  {
    if buf != [] {
      var n := |buf| - 1;
      TxAllFaithful(buf[..n], e, now);
      var t, t1 := TxAll(buf[..n], e, now), TxAll(buf, e, now);
      TxStepFaithful(buf, t, e, now);
    }
  }

  lemma {:induction false} TxStepFaithful(buf: seq<Segment>, t: Tx, e: TxEnv, now: nat -> u32)
    requires buf != [] && |t.done| == |buf| - 1 && TxFaithful(buf[..|buf| - 1], t, e)
    ensures TxFaithful(buf, TxStep(t, buf[|buf| - 1], e, now), e)
  {
    var n := |buf| - 1;
    var t1 := TxStep(t, buf[n], e, now);
    assert |t1.done| == |buf| && t1.done[..n] == t.done;
    assert SameEntry(buf[n], t1.done[n]);
    forall k | 0 <= k < |buf| ensures SameEntry(buf[k], t1.done[k]) {
      if k < n {
        assert buf[..n][k] == buf[k] && SameEntry(buf[..n][k], t.done[k]);
      }
    }
    forall w | w in t1.emits
      ensures w.una == e.una && w.wnd == e.wnd
      ensures exists k :: 0 <= k < |buf| && !buf[k].acked && w == ToWire(t1.done[k])
    {
      if w in t.emits {
        var k :| 0 <= k < n && !buf[..n][k].acked && w == ToWire(t.done[k]);
        assert buf[..n][k] == buf[k] && t1.done[k] == t.done[k];
      } else {
        assert w == ToWire(t1.done[n]) && !buf[n].acked;
      }
    }
  }

  lemma {:induction false} TxKeeps(cfg: Config, s: Sender, e: TxEnv, now: nat -> u32)
    requires cfg.Valid() && SenderInv(cfg, s)
    ensures SenderInv(cfg, s.(buf := TxAll(s.buf, e, now).done))
  {
    TxAllFaithful(s.buf, e, now);
    var t := TxAll(s.buf, e, now);
    forall k | 0 <= k < |s.buf| ensures Entry(cfg, t.done[k], Add32(s.una, k)) {
      assert Entry(cfg, s.buf[k], Add32(s.una, k)) && SameEntry(s.buf[k], t.done[k]);
    }
  }

  lemma {:induction false} FragmentsFit(msg: Payload, mss: nat)
    requires mss > 0
    ensures forall f <- Fragments(msg, mss) :: |f.data| <= mss && !f.acked && f.xmit == 0
    decreases |msg|
  {
    if |msg| > mss { FragmentsFit(msg[mss..], mss); }
  }

  lemma {:induction false} ChunksFit(msg: Payload, mss: nat)
    requires mss > 0
    ensures forall f <- Chunks(msg, mss) :: |f.data| <= mss && !f.acked && f.xmit == 0
    decreases |msg|
  {
    if |msg| > mss { ChunksFit(msg[mss..], mss); }
  }

  lemma {:induction false} SendKeeps(ep: Endpoint, msg: Payload)
    requires EndpointInv(ep)
    ensures EndpointInv(Send(ep, msg).0)
  {
    var mss := ep.cfg.Mss();
    if !ep.cfg.stream {
      FragmentsFit(msg, mss);
    } else {
      ChunksFit(msg[Room(ep.snd.queue, |msg|, mss)..], mss);
    }
  }

  // ---- receiving side ---------------------------------------------------------

  lemma {:induction false} MoveReadyAcks(r: Receiver, wnd: u32)
    ensures MoveReady(r, wnd).acks == r.acks
    decreases |r.buf|
  {
    if r.nxt in r.buf && |r.queue| < wnd {
      MoveReadyAcks(Receiver(r.buf - {r.nxt}, r.queue + [r.buf[r.nxt]], Add32(r.nxt, 1), r.acks), wnd);
    }
  }

  lemma {:induction false} MoveReadyKeeps(r: Receiver, wnd: u32)
    requires wnd <= HALF && ReceiverInv(wnd, r)
    ensures ReceiverInv(wnd, MoveReady(r, wnd))
    ensures Settled(wnd, MoveReady(r, wnd))
    decreases |r.buf|
  {
    if r.nxt in r.buf && |r.queue| < wnd {
      var r1 := Receiver(r.buf - {r.nxt}, r.queue + [r.buf[r.nxt]], Add32(r.nxt, 1), r.acks);
      assert ReceiverInv(wnd, r1) by { AdvanceKeeps(r, wnd, r1); }
      MoveReadyKeeps(r1, wnd);
    }
  }

  lemma {:induction false} AdvanceKeeps(r: Receiver, wnd: u32, r1: Receiver)
    requires wnd <= HALF && ReceiverInv(wnd, r) && r.nxt in r.buf && |r.queue| < wnd
    requires r1 == Receiver(r.buf - {r.nxt}, r.queue + [r.buf[r.nxt]], Add32(r.nxt, 1), r.acks)
    ensures ReceiverInv(wnd, r1)
  {
    forall sn | sn in r1.buf ensures r1.buf[sn].sn == sn && 0 <= TimeDiff(sn, r1.nxt) < wnd {
      assert sn in r.buf && sn != r.nxt;
    }
    forall k | 0 <= k < |r1.queue| ensures r1.queue[k].sn == Sub32(r1.nxt, |r1.queue| - k) {
      if k < |r.queue| {
        assert r1.queue[k] == r.queue[k];
      }
    }
  }

  // A number passes both window checks exactly when it is one of the wnd numbers from nxt.
  lemma {:induction false} WindowExact(r: Receiver, wnd: u32, sn: u32)
    requires wnd <= HALF
    ensures InWindow(r, wnd, sn) && TimeDiff(sn, r.nxt) >= 0 <==> 0 <= TimeDiff(sn, r.nxt) < wnd
  {
  }

  lemma {:induction false} ParseDataKeeps(r: Receiver, wnd: u32, seg: Segment)
    requires wnd <= HALF && ReceiverInv(wnd, r) && Settled(wnd, r)
    ensures ReceiverInv(wnd, ParseData(r, wnd, seg)) && Settled(wnd, ParseData(r, wnd, seg))
  {
    WindowExact(r, wnd, seg.sn);
    if InWindow(r, wnd, seg.sn) && TimeDiff(seg.sn, r.nxt) >= 0 {
      MoveReadyKeeps(Store(r, seg), wnd);
    }
  }

  lemma {:induction false} TakePushKeeps(r: Receiver, wnd: u32, w: Wire)
    requires wnd <= HALF && ReceiverInv(wnd, r) && Settled(wnd, r)
    ensures ReceiverInv(wnd, TakePush(r, wnd, w)) && Settled(wnd, TakePush(r, wnd, w))
  {
    ParseDataKeeps(r.(acks := r.acks + [Ack(w.sn, w.ts)]), wnd, FromWire(w));
  }

  lemma {:induction false} PopKeeps(r: Receiver, n: nat, wnd: u32)
    requires wnd <= HALF && ReceiverInv(wnd, r) && n <= |r.queue|
    ensures ReceiverInv(wnd, r.(queue := r.queue[n..]))
  {
    var q := r.queue[n..];
    forall k | 0 <= k < |q| ensures q[k].sn == Sub32(r.nxt, |q| - k) {
      assert q[k] == r.queue[n + k];
    }
  }

  lemma {:induction false} RecvKeeps(ep: Endpoint, cap: nat)
    requires EndpointInv(ep)
    ensures EndpointInv(Recv(ep, cap).0)
  {
    var n := MessageEnd(ep.rcv.queue);
    PopKeeps(ep.rcv, n, ep.cfg.rcv_wnd);
    MoveReadyKeeps(ep.rcv.(queue := ep.rcv.queue[n..]), ep.cfg.rcv_wnd);
  }

  // ---- the whole endpoint -----------------------------------------------------

  lemma {:induction false} InitKeeps(cfg: Config)
    requires cfg.Valid()
    ensures EndpointInv(NewEndpoint(cfg))
  {
  }

  lemma {:induction false} TakeAckKeeps(cfg: Config, s: Sender, w: Wire)
    requires cfg.Valid() && SenderInv(cfg, s)
    ensures SenderInv(cfg, TakeAck(s, w))
  {
    DropAckedKeeps(cfg, s, w.una);
    if w.cmd == CMD_ACK {
      var s1 := DropAcked(s, w.una);
      MarkAckedKeeps(cfg, s1, w.sn);
      CountSkipsKeeps(cfg, MarkAcked(s1, w.sn), w.sn, w.ts);
    }
  }

  lemma {:induction false} InputSegmentKeeps(ep: Endpoint, w: Wire, regular: bool)
    requires EndpointInv(ep)
    ensures EndpointInv(InputSegment(ep, w, regular))
  {
    TakeAckKeeps(ep.cfg, ep.snd, w);
    TakePushKeeps(ep.rcv, ep.cfg.rcv_wnd, w);
  }

  lemma {:induction false} InputAllKeeps(ep: Endpoint, ws: seq<Wire>, regular: bool)
    requires EndpointInv(ep)
    ensures EndpointInv(InputAll(ep, ws, regular))
    decreases ws
  {
    if ws != [] {
      InputSegmentKeeps(ep, ws[0], regular);
      InputAllKeeps(InputSegment(ep, ws[0], regular), ws[1..], regular);
    }
  }

  // Everything a flush emits fits one datagram.
  lemma {:induction false} AckWiresFit(ep: Endpoint, k: nat)
    requires ep.cfg.Valid() && k <= |ep.rcv.acks|
    ensures forall w <- AckWires(ep, k) :: Fits(ep.cfg.conv, ep.cfg.mtu, w)
  {
    if k > 0 { AckWiresFit(ep, k - 1); }
  }

  lemma {:induction false} PassKeeps(ep: Endpoint, full: bool, c: Control, now: nat -> u32)
    requires ep.cfg.Valid() && SenderInv(ep.cfg, ep.snd) && c.rmt_wnd <= MAX_WINDOW
    ensures SenderInv(ep.cfg, Slid(ep, c))
    ensures SenderInv(ep.cfg, Slid(ep, c).(buf := Pass(ep, full, c, now).done))
    ensures forall w <- Pass(ep, full, c, now).emits :: Fits(ep.cfg.conv, ep.cfg.mtu, w)
  {
    SlideKeeps(ep.cfg, ep.snd, EffectiveWindow(ep.cfg, c));
    if full {
      TxKeeps(ep.cfg, Slid(ep, c), PassEnv(ep, c), now);
      TxFits(ep.cfg, Slid(ep, c), PassEnv(ep, c), now);
    }
  }

  // What congestion control leaves alone.
  predicate SameEstimate(c: Control, c1: Control) {
    c1.rmt_wnd == c.rmt_wnd && c1.srtt == c.srtt && c1.rttvar == c.rttvar
  }

  lemma {:induction false} PassControlKeeps(ep: Endpoint, c: Control, t: Tx)
    requires ep.cfg.Valid()
    ensures SameEstimate(c, PassControl(ep, c, t))
  {
  }

  lemma {:induction false} FlushKeeps(ep: Endpoint, full: bool, probeNow: u32, now: nat -> u32)
    requires EndpointInv(ep)
    ensures EndpointInv(Flush(ep, full, probeNow, now).ep)
  {
    var c := Probe(ep.ctl, probeNow);
    assert SameEstimate(ep.ctl, c);
    PassKeeps(ep, full, c, now);
    PassControlKeeps(ep, c, Pass(ep, full, c, now));
  }

  lemma {:induction false} FlushFits(ep: Endpoint, full: bool, probeNow: u32, now: nat -> u32)
    requires EndpointInv(ep)
    ensures forall w <- Flush(ep, full, probeNow, now).emits :: Fits(ep.cfg.conv, ep.cfg.mtu, w)
  {
    AckWiresFit(ep, |ep.rcv.acks|);
    PassKeeps(ep, full, Probe(ep.ctl, probeNow), now);
  }

  lemma {:induction false} TxFits(cfg: Config, s: Sender, e: TxEnv, now: nat -> u32)
    requires cfg.Valid() && SenderInv(cfg, s)
    ensures forall w <- TxAll(s.buf, e, now).emits :: Fits(cfg.conv, cfg.mtu, w)
  {
    TxAllFaithful(s.buf, e, now);
    var t := TxAll(s.buf, e, now);
    forall w | w in t.emits ensures Fits(cfg.conv, cfg.mtu, w) {
      var k :| 0 <= k < |s.buf| && !s.buf[k].acked && w == ToWire(t.done[k]);
      assert Entry(cfg, s.buf[k], Add32(s.una, k)) && SameEntry(s.buf[k], t.done[k]);
    }
  }

  // For arbitrary incoming bytes.
  lemma {:induction false} InputKeeps(ep: Endpoint, data: Bytes, regular: bool, ackNoDelay: bool, clock: Clock)
    requires EndpointInv(ep)
    ensures EndpointInv(Input(ep, data, regular, ackNoDelay, clock).0)
  {
    var (ws, code) := Decode(ep.cfg.conv, data);
    InputAllKeeps(ep, ws, regular);
    var ep1 := InputAll(ep, ws, regular);
    var ep2 := Settle(ep1, ep.snd.una, AckTimes(ws), regular, clock.rtt);
    SettleKeeps(ep1, ep.snd.una, AckTimes(ws), regular, clock.rtt);
    FlushKeeps(ep2, AnyUrgent(ep, ws, regular), clock.probe, clock.now);
  }

  lemma {:induction false} SettleKeeps(ep: Endpoint, before: u32, acks: seq<u32>, regular: bool, current: u32)
    requires EndpointInv(ep)
    ensures EndpointInv(Settle(ep, before, acks, regular, current))
  {
    if acks != [] && TimeDiff(current, acks[|acks| - 1]) >= 0 {
      SmoothBounds(ep.ctl.srtt, ep.ctl.rttvar, TimeDiff(current, acks[|acks| - 1]), HALF - 1);
    }
  }

  // ---- round-trip estimate ----------------------------------------------------

  // One sample keeps estimate and deviation between zero and the largest sample seen, and
  // every intermediate value within 32 bits.
  lemma {:induction false} SmoothBounds(srtt: int, rttvar: int, rtt: int, m: nat)
    requires 0 <= srtt <= m && 0 <= rttvar <= m && 0 <= rtt <= m < HALF
    ensures var (srtt1, rttvar1) := Smooth(srtt, rttvar, rtt);
            && 0 <= srtt1 <= m && 0 <= rttvar1 <= m
            && -HALF <= rtt - srtt < HALF && -HALF <= srtt1 - rttvar < HALF
  {
  }

  // The estimator after a sequence of samples.
  function Estimate(samples: seq<nat>): (int, int) {
    if samples == [] then (0, 0)
    else
      var n := |samples| - 1;
      var (srtt, rttvar) := Estimate(samples[..n]);
      Smooth(srtt, rttvar, samples[n])
  }

  lemma {:induction false} EstimateBounds(samples: seq<nat>, m: nat)
    requires m < HALF && forall i :: 0 <= i < |samples| ==> samples[i] <= m
    ensures 0 <= Estimate(samples).0 <= m && 0 <= Estimate(samples).1 <= m
  {
    if samples != [] {
      var n := |samples| - 1;
      EstimateBounds(samples[..n], m);
      SmoothBounds(Estimate(samples[..n]).0, Estimate(samples[..n]).1, samples[n], m);
    }
  }

  // The timeout is estimate plus four deviations (or the interval) exactly when that sum fits
  // 32 bits; samples up to 2^28 always do.
  lemma {:induction false} TimeoutExact(srtt: nat, rttvar: nat, interval: u32)
    requires srtt < HALF && rttvar < HALF
    ensures Timeout(srtt, rttvar, interval) == srtt + Max(interval, 4 * rttvar)
       <==> srtt + Max(interval, 4 * rttvar) < U32
    ensures srtt <= 0x1000_0000 && rttvar <= 0x1000_0000 && interval <= 5000 ==>
              srtt + Max(interval, 4 * rttvar) < U32
  {
    if 4 * rttvar < U32 {
      assert rttvar % U32 * 4 % U32 == 4 * rttvar;
    }
  }

  lemma {:induction false} RtoBounds(c: Control, cfg: Config, rtt: nat)
    requires cfg.minrto <= RTO_MAX
    ensures cfg.minrto <= UpdateRtt(c, cfg, rtt).rto <= RTO_MAX
  {
  }
}
