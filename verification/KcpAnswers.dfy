/** What a datagram makes an endpoint know and say: the window it learns, the acks it owes and
    sends, how its congestion window grows, and what goes out at once.
 */
module KcpAnswers {
  import opened Words
  import opened KcpWire
  import opened KcpSpec
  import opened KcpInvariant
  import opened KcpControl
  import opened KcpSkips

  // ---- what is learnt -----------------------------------------------------------------

  // The window of the peer is what the last segment of a regular datagram announces; one that
  // was recovered announces nothing.
  lemma {:induction false} AnnouncedWindow(ep: Endpoint, ws: seq<Wire>, regular: bool)
    ensures InputAll(ep, ws, regular).ctl.rmt_wnd
         == if regular && ws != [] then ws[|ws| - 1].wnd else ep.ctl.rmt_wnd
    decreases ws
  {
    if ws != [] {
      AnnouncedWindow(InputSegment(ep, ws[0], regular), ws[1..], regular);
      if |ws| > 1 { assert ws[1..][|ws| - 2] == ws[|ws| - 1]; }
    }
  }

  // An ack is owed exactly for a piece before the end of the window, new or repeated, with the
  // number and the time it carries.
  lemma {:induction false} AckOwed(ep: Endpoint, w: Wire, regular: bool)
    ensures InputSegment(ep, w, regular).rcv.acks
         == ep.rcv.acks + if w.cmd == CMD_PUSH && TimeDiff(w.sn, Add32(ep.rcv.nxt, ep.cfg.rcv_wnd)) < 0
                          then [Ack(w.sn, w.ts)] else []
  {
    if w.cmd == CMD_PUSH && InWindow(ep.rcv, ep.cfg.rcv_wnd, w.sn) {
      MoveReadyAcks(Store(ep.rcv.(acks := ep.rcv.acks + [Ack(w.sn, w.ts)]), FromWire(w)), ep.cfg.rcv_wnd);
    }
  }

  // A piece that is held is never replaced.
  lemma {:induction false} FirstStays(r: Receiver, wnd: u32, w: Wire)
    requires wnd <= HALF && ReceiverInv(wnd, r)
    ensures var r1 := TakePush(r, wnd, w);
            r.queue <= r1.queue && forall sn :: sn in r.buf && sn in r1.buf ==> r1.buf[sn] == r.buf[sn]
  {
    if InWindow(r, wnd, w.sn) {
      MovesOnly(Store(r.(acks := r.acks + [Ack(w.sn, w.ts)]), FromWire(w)), wnd);
    }
  }

  lemma {:induction false} MovesOnly(r: Receiver, wnd: u32)
    ensures var r1 := MoveReady(r, wnd);
            r.queue <= r1.queue && forall sn :: sn in r1.buf ==> sn in r.buf && r1.buf[sn] == r.buf[sn]
    decreases |r.buf|
  {
    if r.nxt in r.buf && |r.queue| < wnd {
      MovesOnly(Receiver(r.buf - {r.nxt}, r.queue + [r.buf[r.nxt]], Add32(r.nxt, 1), r.acks), wnd);
    }
  }

  // ---- acks that are sent -----------------------------------------------------------------

  // The k-th pending ack is worth sending: what the cumulative one does not cover, and the last.
  predicate Worth(acks: seq<Ack>, nxt: u32, k: nat)
    requires k < |acks|
  {
    TimeDiff(acks[k].sn, nxt) >= 0 || k == |acks| - 1
  }

  // ws are the acks at these places, in order, of the first k pending ones exactly those that are
  // worth sending.
  ghost predicate AcksAt(ep: Endpoint, k: nat, places: seq<nat>, ws: seq<Wire>)
    requires k <= |ep.rcv.acks|
  {
    && |places| == |ws| && (forall i, j :: 0 <= i < j < |places| ==> places[i] < places[j])
    && (forall i :: i in places <==> 0 <= i < k && Worth(ep.rcv.acks, ep.rcv.nxt, i))
    && (forall j :: 0 <= j < |places| ==>
          && places[j] < |ep.rcv.acks| && ws[j].conv == ep.cfg.conv && ws[j].cmd == CMD_ACK && ws[j].frg == 0
          && ws[j].sn == ep.rcv.acks[places[j]].sn && ws[j].ts == ep.rcv.acks[places[j]].ts && ws[j].data == [])
  }

  lemma {:induction false} AcksExact(ep: Endpoint, k: nat) returns (places: seq<nat>)
    requires k <= |ep.rcv.acks|
    ensures AcksAt(ep, k, places, AckWires(ep, k))
    decreases k
  {
    if k == 0 {
      places := [];
    } else {
      places := AcksExact(ep, k - 1);
      if Worth(ep.rcv.acks, ep.rcv.nxt, k - 1) {
        OneMoreAck(ep, k, places, AckWires(ep, k - 1));
        places := places + [k - 1];
      }
    }
  }

  lemma {:induction false} OneMoreAck(ep: Endpoint, k: nat, places: seq<nat>, ws: seq<Wire>)
    requires 0 < k <= |ep.rcv.acks| && AcksAt(ep, k - 1, places, ws) && Worth(ep.rcv.acks, ep.rcv.nxt, k - 1)
    ensures AcksAt(ep, k, places + [k - 1], ws + [AckWire(ep, ep.rcv.acks[k - 1])])
  {
    var ps := places + [k - 1];
    forall i | 0 <= i < |places| ensures places[i] < k - 1 { assert places[i] in places; }
    forall i ensures i in ps <==> i in places || i == k - 1 {
      if i == k - 1 { assert ps[|places|] == i; }
    }
  }

  // ---- how the congestion window grows --------------------------------------------------------

  // It grows when a datagram has moved the window on, and only then.
  lemma {:induction false} GrowsWhenMoved(ep: Endpoint, before: u32, acks: seq<u32>, regular: bool, current: u32,
                                          want: nat)
    requires ep.cfg.Valid() && ep.ctl.rmt_wnd <= MAX_WINDOW && ep.cfg.Mss() <= 0xFFFF && Paced(ep.ctl, ep.cfg.Mss())
    requires Follows(ep.ctl, ep.cfg.Mss(), want)
    ensures var c := Settle(ep, before, acks, regular, current).ctl;
            if !ep.cfg.nocwnd && TimeDiff(ep.snd.una, before) > 0 && ep.ctl.cwnd < ep.ctl.rmt_wnd
            then c.cwnd == Min(want, ep.ctl.rmt_wnd) && c.ssthresh == ep.ctl.ssthresh
            else c.cwnd == ep.ctl.cwnd && c.incr == ep.ctl.incr && c.ssthresh == ep.ctl.ssthresh
  {
    if ep.ctl.cwnd < ep.ctl.rmt_wnd {
      var c := if acks != [] && regular && TimeDiff(current, acks[|acks| - 1]) >= 0
               then UpdateRtt(ep.ctl, ep.cfg, TimeDiff(current, acks[|acks| - 1])) else ep.ctl;
      GrowthExact(c, ep.cfg.Mss(), want);
      WindowGrowth(c, ep.cfg.Mss());
    }
  }

  // ---- what goes out at once ---------------------------------------------------------------------

  // A datagram that moves the window calls for a full flush.
  lemma {:induction false} MovedIsUrgent(ep: Endpoint, ws: seq<Wire>, regular: bool)
    requires EndpointInv(ep) && InputAll(ep, ws, regular).snd.una != ep.snd.una
    ensures AnyUrgent(ep, ws, regular)
    decreases ws
  {
    if ws != [] && !Urgent(ep, ws[0]) {
      InputSegmentKeeps(ep, ws[0], regular);
      UnmovedSegment(ep, ws[0], regular);
      MovedIsUrgent(InputSegment(ep, ws[0], regular), ws[1..], regular);
    }
  }

  lemma {:induction false} UnmovedSegment(ep: Endpoint, w: Wire, regular: bool)
    requires EndpointInv(ep) && UnaCount(ep.snd.buf, w.una) == 0
    ensures InputSegment(ep, w, regular).snd.una == ep.snd.una
  {
    DropAckedKeeps(ep.cfg, ep.snd, w.una);
    UnaCountExact(ep.snd.buf, ep.snd.una, w.una);
  }

  // Everything that a full flush lets into the window is sent by it.
  lemma {:induction false} NewIsSent(ep: Endpoint, clock: Clock, k: nat)
    requires EndpointInv(ep) && |ep.snd.buf| <= k < |Slid(ep, Probe(ep.ctl, clock.probe)).buf|
    ensures Contains(Flush(ep, true, clock.probe, clock.now).emits, Slid(ep, Probe(ep.ctl, clock.probe)).buf[k])
  {
    var c := Probe(ep.ctl, clock.probe);
    var buf, e := Slid(ep, c).buf, PassEnv(ep, c);
    PassKeeps(ep, true, c, clock.now);
    var seg := ep.snd.queue[k - |ep.snd.buf|];
    assert seg in ep.snd.queue;
    assert buf[k].xmit == 0 && !buf[k].acked && buf[k].cmd == CMD_PUSH;
    var w := PassSends(buf, e, clock.now, k);
    assert w in Flush(ep, true, clock.probe, clock.now).emits;
  }

  lemma {:induction false} QueueUntouched(ep: Endpoint, ws: seq<Wire>, regular: bool)
    ensures var s := InputAll(ep, ws, regular).snd; s.queue == ep.snd.queue && s.nxt == ep.snd.nxt
    decreases ws
  {
    if ws != [] { QueueUntouched(InputSegment(ep, ws[0], regular), ws[1..], regular); }
  }

  // What the endpoint has taken in before it responds.
  function TakenIn(ep: Endpoint, d: Datagram): Endpoint
    requires ep.cfg.Valid()
  {
    Settle(InputAll(ep, Segments(ep, d), d.regular), ep.snd.una, AckTimes(Segments(ep, d)), d.regular, d.clock.rtt)
  }

  // The first m pieces of the queue go out, with the next numbers.
  ghost predicate SentNow(ep: Endpoint, emits: seq<Wire>, m: nat) {
    m <= |ep.snd.queue| && m < U32 && forall i :: 0 <= i < m ==>
      Contains(emits, ep.snd.queue[i].(sn := Add32(ep.snd.nxt, i)))
  }

  // A full flush sends what it takes from the queue, and takes all unless the window is full.
  lemma {:induction false} FlushSendsNew(ep: Endpoint, clock: Clock, w: u32)
    requires EndpointInv(ep) && IsWindow(ep.cfg, ep.ctl, w)
    ensures var f := Flush(ep, true, clock.probe, clock.now); var m := |ep.snd.queue| - |f.ep.snd.queue|;
            && m >= 0 && f.ep.snd.queue == ep.snd.queue[m..] && SentNow(ep, f.emits, m)
            && (f.ep.snd.queue != [] ==> |f.ep.snd.buf| >= w)
  {
    var c := Probe(ep.ctl, clock.probe);
    FlushPlan(ep, c, w);
    var f := Flush(ep, true, clock.probe, clock.now);
    var m := |ep.snd.queue| - |f.ep.snd.queue|;
    forall i | 0 <= i < m ensures Contains(f.emits, ep.snd.queue[i].(sn := Add32(ep.snd.nxt, i))) {
      PieceIsSent(ep, clock, i);
    }
  }

  lemma {:induction false} PieceIsSent(ep: Endpoint, clock: Clock, i: nat)
    requires EndpointInv(ep) && i < Slots(ep.snd, EffectiveWindow(ep.cfg, Probe(ep.ctl, clock.probe)))
    ensures Contains(Flush(ep, true, clock.probe, clock.now).emits, ep.snd.queue[i].(sn := Add32(ep.snd.nxt, i)))
  {
    NewIsSent(ep, clock, |ep.snd.buf| + i);
  }

  // A datagram that moves the window on lets in what then fits, and sends it at once.
  lemma {:induction false} MovedSendsNew(ep: Endpoint, d: Datagram, w: u32)
    requires EndpointInv(ep) && |d.data| >= OVERHEAD && Decode(ep.cfg.conv, d.data).1 == 0
    requires InputAll(ep, Segments(ep, d), d.regular).snd.una != ep.snd.una
    requires IsWindow(ep.cfg, TakenIn(ep, d).ctl, w)
    ensures var (r, code, emits) := Input(ep, d.data, d.regular, d.ackNoDelay, d.clock);
            var m := |ep.snd.queue| - |r.snd.queue|;
            && m >= 0 && r.snd.queue == ep.snd.queue[m..] && SentNow(ep, emits, m)
            && (r.snd.queue != [] ==> |r.snd.buf| >= w)
  {
    var ws := Segments(ep, d);
    MovedIsUrgent(ep, ws, d.regular);
    QueueUntouched(ep, ws, d.regular);
    InputAllKeeps(ep, ws, d.regular);
    SettleKeeps(InputAll(ep, ws, d.regular), ep.snd.una, AckTimes(ws), d.regular, d.clock.rtt);
    FlushSendsNew(TakenIn(ep, d), d.clock, w);
  }

  // Acks go first, then a probe, then a window announced, then data.
  function Rank(cmd: u8): nat {
    if cmd == CMD_ACK then 0 else if cmd == CMD_WASK then 1 else if cmd == CMD_WINS then 2 else 3
  }

  lemma {:induction false} FlushInOrder(ep: Endpoint, full: bool, clock: Clock, i: nat, j: nat)
    requires EndpointInv(ep) && i < j < |Flush(ep, full, clock.probe, clock.now).emits|
    ensures var emits := Flush(ep, full, clock.probe, clock.now).emits; Rank(emits[i].cmd) <= Rank(emits[j].cmd)
  {
    var c := Probe(ep.ctl, clock.probe);
    var acks, probes, data := AckWires(ep, |ep.rcv.acks|), ProbeWires(ep, c), Pass(ep, full, c, clock.now).emits;
    OnlyAcks(ep, |ep.rcv.acks|);
    PassKeeps(ep, full, c, clock.now);
    forall w | w in data ensures w.cmd == CMD_PUSH { DataOnly(ep, c, clock, w); }
    var emits := Flush(ep, full, clock.probe, clock.now).emits;
    assert emits == acks + probes + data;
    assert i < |acks| ==> emits[i] in acks;
    assert j < |acks| ==> emits[j] in acks;
    assert i >= |acks| + |probes| ==> emits[i] in data;
    assert j >= |acks| + |probes| ==> emits[j] in data;
  }

  lemma {:induction false} DataOnly(ep: Endpoint, c: Control, clock: Clock, w: Wire)
    requires EndpointInv(ep) && c.rmt_wnd <= MAX_WINDOW && w in TxAll(Slid(ep, c).buf, PassEnv(ep, c), clock.now).emits
    ensures w.cmd == CMD_PUSH
  {
    var s, e := Slid(ep, c), PassEnv(ep, c);
    PassKeeps(ep, true, c, clock.now);
    TxAllFaithful(s.buf, e, clock.now);
    var t := TxAll(s.buf, e, clock.now);
    var k :| 0 <= k < |s.buf| && !s.buf[k].acked && w == ToWire(t.done[k]);
    assert Entry(ep.cfg, s.buf[k], Add32(s.una, k)) && SameEntry(s.buf[k], t.done[k]);
  }

  // A flush of acks only sends no data, and Input makes no other unless it is called for.
  lemma {:induction false} AckOnlyFlush(ep: Endpoint, clock: Clock)
    requires ep.cfg.Valid()
    ensures forall w <- Flush(ep, false, clock.probe, clock.now).emits :: w.cmd != CMD_PUSH
  {
    OnlyAcks(ep, |ep.rcv.acks|);
  }

  lemma {:induction false} OnlyAcks(ep: Endpoint, k: nat)
    requires k <= |ep.rcv.acks|
    ensures forall w <- AckWires(ep, k) :: w.cmd == CMD_ACK
  {
    if k > 0 { OnlyAcks(ep, k - 1); }
  }

  lemma {:induction false} CalmSendsNoData(ep: Endpoint, d: Datagram)
    requires ep.cfg.Valid() && !AnyUrgent(ep, Segments(ep, d), d.regular)
    ensures forall w <- Input(ep, d.data, d.regular, d.ackNoDelay, d.clock).2 :: w.cmd != CMD_PUSH
  {
    AckOnlyFlush(TakenIn(ep, d), d.clock);
  }

  // After a whole datagram fewer acks wait than would fill a datagram, and none if they are not to
  // be delayed.
  lemma {:induction false} FewAcksWait(ep: Endpoint, data: Bytes, regular: bool, ackNoDelay: bool, clock: Clock)
    requires ep.cfg.Valid() && |data| >= OVERHEAD && Decode(ep.cfg.conv, data).1 == 0
    ensures var acks := Input(ep, data, regular, ackNoDelay, clock).0.rcv.acks;
            (ackNoDelay ==> acks == []) && (|acks| + 1) * OVERHEAD <= ep.cfg.mtu
  {
    var ws := Decode(ep.cfg.conv, data).0;
    var ep2 := Settle(InputAll(ep, ws, regular), ep.snd.una, AckTimes(ws), regular, clock.rtt);
    FewAfterRespond(ep2, AnyUrgent(ep, ws, regular), ackNoDelay, clock);
  }

  lemma {:induction false} FewAfterRespond(ep: Endpoint, urgent: bool, ackNoDelay: bool, clock: Clock)
    requires ep.cfg.Valid()
    ensures var acks := Respond(ep, urgent, ackNoDelay, clock).0.rcv.acks;
            (ackNoDelay ==> acks == []) && (|acks| + 1) * OVERHEAD <= ep.cfg.mtu
  {
  }
}
