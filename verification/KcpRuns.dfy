/** Whole runs of a single endpoint against an arbitrary peer and network: any operations,
    any incoming bytes, any clock.
 */
module KcpRuns {
  import opened Words
  import opened KcpWire
  import opened KcpSpec
  import opened KcpInvariant
  import opened KcpControl

  datatype Op =
    | Sending(msg: Payload)
    | Receiving(cap: nat)
    | Flushing(full: bool, probeNow: u32, now: nat -> u32)
    | Incoming(data: Bytes, regular: bool, ackNoDelay: bool, clock: Clock)

  // New state and the segments put on the wire.
  function Do(ep: Endpoint, op: Op): (Endpoint, seq<Wire>)
    requires ep.cfg.Valid()
  {
    match op
    case Sending(msg) => (Send(ep, msg).0, [])
    case Receiving(cap) => (Recv(ep, cap).0, [])
    case Flushing(full, probeNow, now) => var f := Flush(ep, full, probeNow, now); (f.ep, f.emits)
    case Incoming(data, regular, ackNoDelay, clock) =>
      var r := Input(ep, data, regular, ackNoDelay, clock); (r.0, r.2)
  }

  lemma {:induction false} StepKeeps(ep: Endpoint, op: Op)
    requires EndpointInv(ep)
    ensures EndpointInv(Do(ep, op).0)
  {
    match op
    case Sending(msg) => SendKeeps(ep, msg);
    case Receiving(cap) => RecvKeeps(ep, cap);
    case Flushing(full, probeNow, now) => FlushKeeps(ep, full, probeNow, now);
    case Incoming(data, regular, ackNoDelay, clock) => InputKeeps(ep, data, regular, ackNoDelay, clock);
  }

  // The state after a run; every operation keeps the invariant.
  function Run(ep: Endpoint, ops: seq<Op>): (r: Endpoint)
    requires EndpointInv(ep)
    ensures EndpointInv(r)
    decreases ops
  {
    if ops == [] then ep
    else
      StepKeeps(ep, ops[0]);
      Run(Do(ep, ops[0]).0, ops[1..])
  }

  // In every state an endpoint can reach, the send window is the consecutive numbers from
  // snd_una to snd_nxt, at most 65535 of them, and the receive side is a window of distinct
  // numbers behind a consecutive queue.
  lemma {:induction false} EveryStateShaped(cfg: Config, ops: seq<Op>)
    requires cfg.Valid()
    ensures EndpointInv(NewEndpoint(cfg))
    ensures var ep := Run(NewEndpoint(cfg), ops);
            && |ep.snd.buf| <= 65535 && ep.snd.nxt == Add32(ep.snd.una, |ep.snd.buf|)
            && (forall k :: 0 <= k < |ep.snd.buf| ==> ep.snd.buf[k].sn == Add32(ep.snd.una, k))
            && (forall k :: 0 <= k < |ep.snd.buf| && ep.snd.buf[k].acked ==> ep.snd.buf[k].data == [])
            && (forall sn :: sn in ep.rcv.buf ==> 0 <= TimeDiff(sn, ep.rcv.nxt) < ep.cfg.rcv_wnd)
            && (forall k :: 0 <= k < |ep.rcv.queue| ==> ep.rcv.queue[k].sn == Sub32(ep.rcv.nxt, |ep.rcv.queue| - k))
            && |ep.rcv.queue| <= ep.cfg.rcv_wnd
            && (ep.rcv.nxt in ep.rcv.buf ==> |ep.rcv.queue| == ep.cfg.rcv_wnd)
  {
    InitKeeps(cfg);
    var ep := Run(NewEndpoint(cfg), ops);
    assert forall k :: 0 <= k < |ep.snd.buf| ==> Entry(ep.cfg, ep.snd.buf[k], Add32(ep.snd.una, k));
  }

  // ---- an acknowledged number is never transmitted again -----------------------

  // sn was numbered (no more than half the word space ago) and no entry still waits for it.
  ghost predicate NumberDone(s: Sender, sn: u32) {
    TimeDiff(sn, s.nxt) < 0 && forall k :: 0 <= k < |s.buf| && s.buf[k].sn == sn ==> s.buf[k].acked
  }

  lemma {:induction false} DropDone(cfg: Config, s: Sender, una: u32, sn: u32)
    requires cfg.Valid() && SenderInv(cfg, s) && NumberDone(s, sn)
    ensures NumberDone(DropAcked(s, una), sn) && DropAcked(s, una).nxt == s.nxt
  {
    DropAckedKeeps(cfg, s, una);
    var n := Max(0, Min(TimeDiff(una, s.una), |s.buf|));
    assert forall k :: 0 <= k < |s.buf[n..]| ==> s.buf[n..][k] == s.buf[n + k];
  }

  lemma {:induction false} MarkDone(s: Sender, ack: u32, sn: u32)
    requires NumberDone(s, sn)
    ensures NumberDone(MarkAcked(s, ack), sn) && MarkAcked(s, ack).nxt == s.nxt
  {
    var s1 := MarkAcked(s, ack);
    assert forall k :: 0 <= k < |s1.buf| ==> s1.buf[k].sn == s.buf[k].sn && (s.buf[k].acked ==> s1.buf[k].acked);
  }

  lemma {:induction false} TakeAckDone(cfg: Config, s: Sender, w: Wire, sn: u32)
    requires cfg.Valid() && SenderInv(cfg, s) && NumberDone(s, sn)
    ensures NumberDone(TakeAck(s, w), sn) && TakeAck(s, w).nxt == s.nxt
  {
    DropDone(cfg, s, w.una, sn);
    if w.cmd == CMD_ACK { MarkDone(DropAcked(s, w.una), w.sn, sn); }
  }

  // An acknowledgement makes its number done.
  lemma {:induction false} AckMakesDone(cfg: Config, s: Sender, sn: u32)
    requires cfg.Valid() && SenderInv(cfg, s) && 0 <= TimeDiff(sn, s.una) < |s.buf|
    ensures NumberDone(MarkAcked(s, sn), sn)
  {
    var s1 := MarkAcked(s, sn);
    forall k | 0 <= k < |s1.buf| && s1.buf[k].sn == sn ensures s1.buf[k].acked {
      assert Entry(cfg, s.buf[k], Add32(s.una, k));
    }
  }

  lemma {:induction false} InputAllDone(ep: Endpoint, ws: seq<Wire>, regular: bool, sn: u32)
    requires EndpointInv(ep) && NumberDone(ep.snd, sn)
    ensures NumberDone(InputAll(ep, ws, regular).snd, sn)
    decreases ws
  {
    if ws != [] {
      TakeAckDone(ep.cfg, ep.snd, ws[0], sn);
      InputSegmentKeeps(ep, ws[0], regular);
      InputAllDone(InputSegment(ep, ws[0], regular), ws[1..], regular, sn);
    }
  }

  lemma {:induction false} SlideDone(cfg: Config, s: Sender, n: nat, sn: u32)
    requires n <= |s.queue| && n <= MAX_WINDOW && NumberDone(s, sn)
    ensures var s1 := Slide(s, n, cfg.conv);
            forall k :: 0 <= k < |s1.buf| && s1.buf[k].sn == sn ==> s1.buf[k].acked
  {
    forall i: nat | i < n ensures Add32(s.nxt, i) != sn {
      assert TimeDiff(Add32(s.nxt, i), s.nxt) >= 0;
    }
  }

  lemma {:induction false} PassDone(ep: Endpoint, full: bool, c: Control, now: nat -> u32, sn: u32)
    requires ep.cfg.Valid() && SenderInv(ep.cfg, ep.snd) && c.rmt_wnd <= MAX_WINDOW && NumberDone(ep.snd, sn)
    ensures forall w <- Pass(ep, full, c, now).emits :: w.sn != sn
    ensures var t := Pass(ep, full, c, now); forall k :: 0 <= k < |t.done| && t.done[k].sn == sn ==> t.done[k].acked
  {
    var s, t := Slid(ep, c), Pass(ep, full, c, now);
    SlideDone(ep.cfg, ep.snd, Slots(ep.snd, EffectiveWindow(ep.cfg, c)), sn);
    if full {
      TxAllFaithful(s.buf, PassEnv(ep, c), now);
      assert forall k :: 0 <= k < |s.buf| ==> SameEntry(s.buf[k], t.done[k]);
      forall w | w in t.emits ensures w.sn != sn {
        var k :| 0 <= k < |s.buf| && !s.buf[k].acked && w == ToWire(t.done[k]);
      }
    }
  }

  lemma {:induction false} AckWiresAreAcks(ep: Endpoint, k: nat)
    requires k <= |ep.rcv.acks|
    ensures forall w <- AckWires(ep, k) :: w.cmd == CMD_ACK
  {
    if k > 0 { AckWiresAreAcks(ep, k - 1); }
  }

  // What a flush sends does not include a done number, which stays done as long as it is
  // recent.
  lemma {:induction false} FlushDone(ep: Endpoint, full: bool, probeNow: u32, now: nat -> u32, sn: u32)
    requires EndpointInv(ep) && NumberDone(ep.snd, sn)
    ensures var f := Flush(ep, full, probeNow, now);
            && (forall w <- f.emits :: w.cmd == CMD_PUSH ==> w.sn != sn)
            && (TimeDiff(sn, f.ep.snd.nxt) < 0 ==> NumberDone(f.ep.snd, sn))
  {
    AckWiresAreAcks(ep, |ep.rcv.acks|);
    PassDone(ep, full, Probe(ep.ctl, probeNow), now, sn);
  }

  lemma {:induction false} InputDone(ep: Endpoint, data: Bytes, regular: bool, ackNoDelay: bool, clock: Clock, sn: u32)
    requires EndpointInv(ep) && NumberDone(ep.snd, sn)
    ensures var (ep1, _, emits) := Input(ep, data, regular, ackNoDelay, clock);
            && (forall w <- emits :: w.cmd == CMD_PUSH ==> w.sn != sn)
            && (TimeDiff(sn, ep1.snd.nxt) < 0 ==> NumberDone(ep1.snd, sn))
  {
    var (ws, code) := Decode(ep.cfg.conv, data);
    var ep1 := InputAll(ep, ws, regular);
    InputAllKeeps(ep, ws, regular);
    InputAllDone(ep, ws, regular, sn);
    var ep2 := Settle(ep1, ep.snd.una, AckTimes(ws), regular, clock.rtt);
    SettleKeeps(ep1, ep.snd.una, AckTimes(ws), regular, clock.rtt);
    FlushDone(ep2, AnyUrgent(ep, ws, regular), clock.probe, clock.now, sn);
  }

  // sn is a recent number all along the run.
  ghost predicate RecentThroughout(ep: Endpoint, ops: seq<Op>, sn: u32)
    requires EndpointInv(ep)
    decreases ops
  {
    TimeDiff(sn, ep.snd.nxt) < 0 &&
    (ops != [] ==> (StepKeeps(ep, ops[0]); RecentThroughout(Do(ep, ops[0]).0, ops[1..], sn)))
  }

  // Everything put on the wire during the run.
  function Emitted(ep: Endpoint, ops: seq<Op>): seq<Wire>
    requires EndpointInv(ep)
    decreases ops
  {
    if ops == [] then []
    else
      StepKeeps(ep, ops[0]);
      Do(ep, ops[0]).1 + Emitted(Do(ep, ops[0]).0, ops[1..])
  }

  // Once acknowledged, a number is never transmitted again, over any run that does not use
  // up half the word space.
  lemma {:induction false} AckedNeverResent(ep: Endpoint, ops: seq<Op>, sn: u32)
    requires EndpointInv(ep) && NumberDone(ep.snd, sn) && RecentThroughout(ep, ops, sn)
    ensures forall w <- Emitted(ep, ops) :: w.cmd == CMD_PUSH ==> w.sn != sn
    decreases ops
  {
    if ops != [] {
      StepKeeps(ep, ops[0]);
      match ops[0] {
        case Sending(msg) =>
        case Receiving(cap) =>
        case Flushing(full, probeNow, now) => FlushDone(ep, full, probeNow, now, sn);
        case Incoming(data, regular, ackNoDelay, clock) => InputDone(ep, data, regular, ackNoDelay, clock, sn);
      }
      AckedNeverResent(Do(ep, ops[0]).0, ops[1..], sn);
    }
  }

  // ---- windows and probes over whole runs -----------------------------------------

  // Payloads are what an IP datagram can carry.
  predicate Carried(cfg: Config) {
    cfg.Valid() && cfg.Mss() <= 0xFFFF
  }

  ghost predicate ControlInv(cfg: Config, c: Control)
    requires cfg.Valid()
  {
    && Paced(c, cfg.Mss()) && c.rmt_wnd <= MAX_WINDOW
    && (c.probe_wait == 0 || PROBE_INIT <= c.probe_wait <= PROBE_LIMIT)
  }

  lemma {:induction false} AfterFlushPaced(c: Control, mss: u32, cwnd: u32, inflight: u32, resent: u32, change: bool,
                                           lost: bool)
    requires 0 < mss <= 0xFFFF && Paced(c, mss)
    ensures Paced(AfterFlush(c, mss, cwnd, inflight, resent, change, lost), mss)
  {
    var x := Add32(Max(inflight / 2, THRESH_MIN), resent);
    if x <= MAX_WINDOW { Product(x, mss); Closer(x, mss); }
  }

  lemma {:induction false} PassControlled(ep: Endpoint, c: Control, t: Tx)
    requires Carried(ep.cfg) && ControlInv(ep.cfg, c)
    ensures ControlInv(ep.cfg, PassControl(ep, c, t))
  {
    var snd := Slid(ep, c);
    var c1 := c.(askSend := false, askTell := false, state := if t.dead then MAX32 else c.state);
    AfterFlushPaced(c1, ep.cfg.Mss(), EffectiveWindow(ep.cfg, c), Sub32(snd.nxt, snd.una), Resent(ep.cfg),
                    t.change, t.lost);
  }

  lemma {:induction false} FlushControl(ep: Endpoint, full: bool, probeNow: u32, now: nat -> u32)
    requires Carried(ep.cfg) && ControlInv(ep.cfg, ep.ctl)
    ensures ControlInv(ep.cfg, Flush(ep, full, probeNow, now).ep.ctl)
  {
    var c := Probe(ep.ctl, probeNow);
    ProbeWait(ep.ctl, probeNow);
    PassControlled(ep, c, Pass(ep, full, c, now));
  }

  lemma {:induction false} InputAllControl(ep: Endpoint, ws: seq<Wire>, regular: bool)
    requires ep.cfg.Valid() && ControlInv(ep.cfg, ep.ctl)
    ensures ControlInv(ep.cfg, InputAll(ep, ws, regular).ctl)
    decreases ws
  {
    if ws != [] { InputAllControl(InputSegment(ep, ws[0], regular), ws[1..], regular); }
  }

  lemma {:induction false} SettleControl(ep: Endpoint, before: u32, acks: seq<u32>, regular: bool, current: u32)
    requires Carried(ep.cfg) && ControlInv(ep.cfg, ep.ctl)
    ensures ControlInv(ep.cfg, Settle(ep, before, acks, regular, current).ctl)
  {
    var c1 := if acks != [] && regular && TimeDiff(current, acks[|acks| - 1]) >= 0
              then UpdateRtt(ep.ctl, ep.cfg, TimeDiff(current, acks[|acks| - 1])) else ep.ctl;
    WindowGrowth(c1, ep.cfg.Mss());
    if c1.cwnd < c1.rmt_wnd { assert GrowWindow(c1, ep.cfg.Mss()).probe_wait == c1.probe_wait; }
  }

  lemma {:induction false} InputControl(ep: Endpoint, data: Bytes, regular: bool, ackNoDelay: bool, clock: Clock)
    requires Carried(ep.cfg) && ControlInv(ep.cfg, ep.ctl)
    ensures ControlInv(ep.cfg, Input(ep, data, regular, ackNoDelay, clock).0.ctl)
  {
    var (ws, code) := Decode(ep.cfg.conv, data);
    InputAllControl(ep, ws, regular);
    var ep1 := InputAll(ep, ws, regular);
    SettleControl(ep1, ep.snd.una, AckTimes(ws), regular, clock.rtt);
    var ep2 := Settle(ep1, ep.snd.una, AckTimes(ws), regular, clock.rtt);
    FlushControl(ep2, AnyUrgent(ep, ws, regular), clock.probe, clock.now);
  }

  lemma {:induction false} StepControl(ep: Endpoint, op: Op)
    requires Carried(ep.cfg) && ControlInv(ep.cfg, ep.ctl)
    ensures Do(ep, op).0.cfg == ep.cfg && ControlInv(ep.cfg, Do(ep, op).0.ctl)
  {
    match op
    case Sending(msg) =>
    case Receiving(cap) =>
    case Flushing(full, probeNow, now) => FlushControl(ep, full, probeNow, now);
    case Incoming(data, regular, ackNoDelay, clock) => InputControl(ep, data, regular, ackNoDelay, clock);
  }

  lemma {:induction false} RunControl(ep: Endpoint, ops: seq<Op>)
    requires EndpointInv(ep) && Carried(ep.cfg) && ControlInv(ep.cfg, ep.ctl)
    ensures Run(ep, ops).cfg == ep.cfg && ControlInv(ep.cfg, Run(ep, ops).ctl)
    decreases ops
  {
    if ops != [] {
      StepKeeps(ep, ops[0]);
      StepControl(ep, ops[0]);
      RunControl(Do(ep, ops[0]).0, ops[1..]);
    }
  }

  // In every state an endpoint can reach, growth never shrinks the congestion window or takes
  // it past the peer's, nothing behind it wraps, and probes are 0.5 to 120 seconds apart.
  lemma {:induction false} WindowsInRuns(cfg: Config, ops: seq<Op>)
    requires Carried(cfg)
    ensures EndpointInv(NewEndpoint(cfg))
    ensures var c := Run(NewEndpoint(cfg), ops).ctl; var r := GrowWindow(c, cfg.Mss());
            && (c.cwnd <= MAX_WINDOW ==> c.incr <= (c.cwnd + 1) * cfg.Mss())
            && c.cwnd <= r.cwnd <= Max(c.cwnd, c.rmt_wnd) && c.rmt_wnd <= MAX_WINDOW
            && (c.probe_wait == 0 || PROBE_INIT <= c.probe_wait <= PROBE_LIMIT)
  {
    InitKeeps(cfg);
    RunControl(NewEndpoint(cfg), ops);
    WindowGrowth(Run(NewEndpoint(cfg), ops).ctl, cfg.Mss());
  }
}
