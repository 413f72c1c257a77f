/** What two endpoints tell each other: which segments a flush sends, how they are found in
    its datagrams, and what the other side knows once it has taken one in.
 */
module KcpExchange {
  import opened Words
  import opened KcpWire
  import opened KcpSpec
  import opened KcpInvariant
  import opened KcpFlow
  import opened KcpControl
  import opened KcpPair
  import opened KcpDelivery

  // ---- what a flush sends ----------------------------------------------------------

  // Every segment carries the cumulative acknowledgement and the window.
  predicate Uniform(ep: Endpoint, w: Wire) {
    w.una == ep.rcv.nxt && w.wnd == Unused(ep.rcv, ep.cfg.rcv_wnd)
  }

  lemma {:induction false} AcksUniform(ep: Endpoint, k: nat)
    requires k <= |ep.rcv.acks|
    ensures forall w <- AckWires(ep, k) :: Uniform(ep, w) && w.cmd == CMD_ACK
  {
    if k > 0 { AcksUniform(ep, k - 1); }
  }

  lemma {:induction false} FlushUniform(ep: Endpoint, full: bool, clock: Clock)
    requires ep.cfg.Valid()
    ensures forall w <- KcpSpec.Flush(ep, full, clock.probe, clock.now).emits :: Uniform(ep, w)
  {
    var c := Probe(ep.ctl, clock.probe);
    AcksUniform(ep, |ep.rcv.acks|);
    TxAllFaithful(Slid(ep, c).buf, PassEnv(ep, c), clock.now);
  }

  // The last pending ack is always sent, and a window that was asked for.
  lemma {:induction false} FlushTells(ep: Endpoint, full: bool, clock: Clock)
    requires ep.cfg.Valid()
    ensures var emits := KcpSpec.Flush(ep, full, clock.probe, clock.now).emits;
            && (ep.rcv.acks != [] ==> AckWire(ep, LastAck(ep)) in emits)
            && (ep.ctl.askTell ==> ProbeWire(ep, CMD_WINS) in emits)
            && (Probe(ep.ctl, clock.probe).askSend ==> ProbeWire(ep, CMD_WASK) in emits)
  {
    var f, c := KcpSpec.Flush(ep, full, clock.probe, clock.now), Probe(ep.ctl, clock.probe);
    var t := Pass(ep, full, c, clock.now);
    var acks, probes := AckWires(ep, |ep.rcv.acks|), ProbeWires(ep, c);
    assert f.emits == acks + probes + t.emits;
    if ep.rcv.acks != [] { assert f.emits[|acks| - 1] == AckWire(ep, LastAck(ep)); }
    if c.askTell { assert f.emits[|acks| + |probes| - 1] == ProbeWire(ep, CMD_WINS); }
    if c.askSend { assert f.emits[|acks|] == ProbeWire(ep, CMD_WASK); }
  }

  function Always(t: u32): nat -> u32 { (_: nat) => t }

  // An entry of the window that waits is sent by a full flush at the time its timer runs out.
  lemma {:induction false} FlushResends(ep: Endpoint, k: nat, probe: u32)
    requires EndpointInv(ep) && k < |ep.snd.buf| && !ep.snd.buf[k].acked
    ensures exists w :: w in KcpSpec.Flush(ep, true, probe, Always(ep.snd.buf[k].resendts)).emits &&
                        w.cmd == CMD_PUSH && w.sn == Add32(ep.snd.una, k)
  {
    var now := Always(ep.snd.buf[k].resendts);
    var c := Probe(ep.ctl, probe);
    var buf, e := Slid(ep, c).buf, PassEnv(ep, c);
    assert buf[k] == ep.snd.buf[k];
    var w := PassResends(buf, e, ep.snd.buf[k].resendts, k);
    assert Entry(ep.cfg, ep.snd.buf[k], Add32(ep.snd.una, k));
    assert w in KcpSpec.Flush(ep, true, probe, now).emits;
  }

  lemma {:induction false} ConstantTime(buf: seq<Segment>, e: TxEnv, t: u32)
    ensures TxAll(buf, e, Always(t)).current == t
    decreases |buf|
  {
    if buf != [] { ConstantTime(buf[..|buf| - 1], e, t); }
  }

  lemma {:induction false} PassResends(buf: seq<Segment>, e: TxEnv, t: u32, k: nat) returns (w: Wire)
    requires k < |buf| && !buf[k].acked && t == buf[k].resendts
    ensures w in TxAll(buf, e, Always(t)).emits && w.cmd == buf[k].cmd && w.sn == buf[k].sn
  {
    var now := Always(t);
    ConstantTime(buf[..k], e, t);
    NothingOverdue(buf, e, now, k);
    TxAllFaithful(buf, e, now);
    var s1 := TxAll(buf, e, now).done[k];
    assert SameEntry(buf[k], s1);
    w := ToWire(s1);
    var e1 := Upto(buf, e, now, k + 1).emits;
    assert e1[|e1| - 1] == w && TxAll(buf, e, now).emits[|e1| - 1] == w;
  }

  // ---- datagrams ---------------------------------------------------------------------

  lemma {:induction false} FromRun(conv: u32, out: seq<Bytes>, w: Wire) returns (d: Bytes)
    requires w in DecodeRun(conv, out)
    ensures d in out && w in Decode(conv, d).0
  {
    var n := |out| - 1;
    if w in Decode(conv, out[n]).0 { d := out[n]; } else { d := FromRun(conv, out[..n], w); }
  }

  // pkt is one of the datagrams of p that carry these segments.
  ghost predicate Carries(p: Peer, pkt: Packet, ws: seq<Wire>) {
    && pkt == PacketOf(p, pkt.bytes) && |pkt.bytes| >= OVERHEAD && Decode(p.ep.cfg.conv, pkt.bytes).1 == 0
    && (forall w <- Decode(p.ep.cfg.conv, pkt.bytes).0 :: w in ws)
  }

  lemma {:induction false} PacketWith(p: Peer, ws: seq<Wire>, w: Wire) returns (pkt: Packet)
    requires (forall x <- ws :: Fits(p.ep.cfg.conv, p.ep.cfg.mtu, x)) && w in ws
    ensures pkt in Packets(p, ws) && Carries(p, pkt, ws) && w in Decode(p.ep.cfg.conv, pkt.bytes).0
  {
    var conv, out := p.ep.cfg.conv, Pack(ws, p.ep.cfg.mtu);
    PackRoundTrip(conv, p.ep.cfg.mtu, ws);
    var d := FromRun(conv, out, w);
    pkt := PacketOf(p, d);
    forall x | x in Decode(conv, d).0 ensures x in ws { InRun(conv, out, d, x); }
    ShortEmpty(conv, d);
  }

  lemma {:induction false} ShortEmpty(conv: u32, d: Bytes)
    ensures |d| < OVERHEAD ==> Decode(conv, d).0 == []
  {
  }

  // ---- taking a datagram in -------------------------------------------------------------

  // The segments all acknowledge r cumulatively and announce the window u.
  ghost predicate AllSay(ws: seq<Wire>, stamps: seq<Stamp>, r: nat, u: u16) {
    |ws| == |stamps| && forall i :: 0 <= i < |ws| ==> stamps[i].una == r && ws[i].wnd == u
  }

  lemma {:induction false} SegmentUna(p: Peer, q: Peer, w: Wire, st: Stamp, regular: bool)
    requires Linked(p, q) && SegmentGenuine(q, w, st) && FreshSegment(p, q, w, st)
    ensures PeerSegment(p, w, st, regular).una == Max(p.una, st.una)
  {
    if w.cmd == CMD_ACK { ArrivedBelow(p, q, st.sn); }
    TakeAckFlow(p.ep.cfg, p.ep.snd, p.una, p.nxt, LogOf(p), w, st.una, st.sn, ArrivedSet(q));
    AdvanceTo(p.una, Max(p.una, st.una));
  }

  ghost predicate AllGood(p: Peer, q: Peer, ws: seq<Wire>, stamps: seq<Stamp>) {
    && Linked(p, q) && |ws| == |stamps|
    && forall i :: 0 <= i < |ws| ==> SegmentGenuine(q, ws[i], stamps[i]) && FreshSegment(p, q, ws[i], stamps[i])
  }

  lemma {:induction false} RestGood(p: Peer, q: Peer, ws: seq<Wire>, stamps: seq<Stamp>, regular: bool)
    requires AllGood(p, q, ws, stamps) && ws != []
    ensures var p1 := PeerSegment(p, ws[0], stamps[0], regular); AllGood(p1, q, ws[1..], stamps[1..]) && Calm(p, p1)
  {
    SegmentStep(p, q, ws[0], stamps[0], regular);
    var p1 := PeerSegment(p, ws[0], stamps[0], regular);
    forall i | 0 <= i < |ws[1..]|
      ensures SegmentGenuine(q, ws[1..][i], stamps[1..][i]) && FreshSegment(p1, q, ws[1..][i], stamps[1..][i])
    {
      assert SegmentGenuine(q, ws[i + 1], stamps[i + 1]) && FreshSegment(p, q, ws[i + 1], stamps[i + 1]);
    }
  }

  // The other side learns both.
  lemma {:induction false} LearnsWindow(p: Peer, q: Peer, ws: seq<Wire>, stamps: seq<Stamp>, r: nat, u: u16)
    requires AllGood(p, q, ws, stamps) && AllSay(ws, stamps, r, u)
    ensures var p1 := PeerAll(p, ws, stamps, true);
            ws != [] ==> p1.una == Max(p.una, r) && p1.ep.ctl.rmt_wnd == u
    decreases ws
  {
    if ws != [] {
      var p1 := PeerSegment(p, ws[0], stamps[0], true);
      SegmentUna(p, q, ws[0], stamps[0], true);
      RestGood(p, q, ws, stamps, true);
      assert ws[0].wnd == u && stamps[0].una == r;
      LearnsWindow(p1, q, ws[1..], stamps[1..], r, u);
      if ws[1..] == [] { assert stamps[1..] == []; }
    }
  }

  // p owes the other side an answer.
  predicate Owes(p: Peer) {
    p.ep.rcv.acks != [] || p.ep.ctl.askTell
  }

  lemma {:induction false} OwesStays(p: Peer, ws: seq<Wire>, stamps: seq<Stamp>)
    requires |ws| == |stamps| && Owes(p)
    ensures Owes(PeerAll(p, ws, stamps, true))
    decreases ws
  {
    if ws != [] {
      SegmentOwes(p, ws[0], stamps[0]);
      OwesStays(PeerSegment(p, ws[0], stamps[0], true), ws[1..], stamps[1..]);
    }
  }

  lemma {:induction false} SegmentOwes(p: Peer, w: Wire, st: Stamp)
    ensures var p1 := PeerSegment(p, w, st, true);
            && (Owes(p) || w.cmd == CMD_WASK ==> Owes(p1))
            && (w.cmd == CMD_PUSH && InWindow(p.ep.rcv, p.ep.cfg.rcv_wnd, w.sn) ==> Owes(p1))
  {
    if w.cmd == CMD_PUSH {
      MoveReadyAcks(Store(p.ep.rcv.(acks := p.ep.rcv.acks + [Ack(w.sn, w.ts)]), FromWire(w)), p.ep.cfg.rcv_wnd);
    }
  }

  // A piece before the end of the window, and less than half the word space before, passes the
  // window check.
  lemma {:induction false} PushInWindow(p: Peer, q: Peer, w: Wire, st: Stamp)
    requires Linked(p, q) && w.cmd == CMD_PUSH && SegmentGenuine(q, w, st)
    requires q.nxt + p.ep.cfg.rcv_wnd - st.sn <= HALF && st.sn < p.rnxt + p.ep.cfg.rcv_wnd
    ensures InWindow(p.ep.rcv, p.ep.cfg.rcv_wnd, w.sn)
  {
    WrapAdd(p.rnxt, p.ep.cfg.rcv_wnd);
    TimeDiffIsDistance(st.sn, p.rnxt + p.ep.cfg.rcv_wnd);
  }

  // A segment that asks for an answer: a window probe, or a recent piece of the window.
  ghost predicate Asks(p: Peer, q: Peer, w: Wire, st: Stamp) {
    || w.cmd == CMD_WASK
    || (w.cmd == CMD_PUSH && q.nxt + p.ep.cfg.rcv_wnd - st.sn <= HALF && st.sn < p.rnxt + p.ep.cfg.rcv_wnd)
  }

  lemma {:induction false} AskedOwes(p: Peer, q: Peer, ws: seq<Wire>, stamps: seq<Stamp>, j: nat)
    requires AllGood(p, q, ws, stamps) && j < |ws| && Asks(p, q, ws[j], stamps[j])
    ensures Owes(PeerAll(p, ws, stamps, true))
    decreases j
  {
    var p1 := PeerSegment(p, ws[0], stamps[0], true);
    if j == 0 {
      if ws[0].cmd == CMD_PUSH { PushInWindow(p, q, ws[0], stamps[0]); }
      SegmentOwes(p, ws[0], stamps[0]);
      OwesStays(p1, ws[1..], stamps[1..]);
    } else {
      RestGood(p, q, ws, stamps, true);
      AskedOwes(p1, q, ws[1..], stamps[1..], j - 1);
    }
  }

  // The piece that is waited for moves the receiver on, if its queue has room.
  lemma {:induction false} SegmentAdvances(p: Peer, q: Peer, w: Wire, st: Stamp)
    requires Linked(p, q) && SegmentGenuine(q, w, st) && FreshSegment(p, q, w, st)
    requires w.cmd == CMD_PUSH && st.sn == p.rnxt && |p.ep.rcv.queue| < p.ep.cfg.rcv_wnd
    ensures PeerSegment(p, w, st, true).rnxt > p.rnxt
  {
    var j := TakePushFlow(p.ep.rcv, p.rnxt, p.ep.cfg.rcv_wnd, q.sent, q.nxt, w, st.sn);
    TakePushKeeps(p.ep.rcv, p.ep.cfg.rcv_wnd, w);
    AdvanceTo(p.rnxt, j);
  }

  lemma {:induction false} RestGrows(p: Peer, q: Peer, ws: seq<Wire>, stamps: seq<Stamp>)
    requires AllGood(p, q, ws, stamps)
    ensures PeerAll(p, ws, stamps, true).rnxt >= p.rnxt
  {
    AllSegments(p, q, ws, stamps, true);
  }

  lemma {:induction false} AdvancesFirst(p: Peer, q: Peer, ws: seq<Wire>, stamps: seq<Stamp>)
    requires AllGood(p, q, ws, stamps) && ws != [] && ws[0].cmd == CMD_PUSH && stamps[0].sn == p.rnxt
    requires |p.ep.rcv.queue| < p.ep.cfg.rcv_wnd
    ensures PeerAll(p, ws, stamps, true).rnxt > p.rnxt
  {
    SegmentAdvances(p, q, ws[0], stamps[0]);
    RestGood(p, q, ws, stamps, true);
    RestGrows(PeerSegment(p, ws[0], stamps[0], true), q, ws[1..], stamps[1..]);
  }

  lemma {:induction false} Advances(p: Peer, q: Peer, ws: seq<Wire>, stamps: seq<Stamp>, j: nat)
    requires AllGood(p, q, ws, stamps) && j < |ws| && ws[j].cmd == CMD_PUSH && stamps[j].sn == p.rnxt
    requires |p.ep.rcv.queue| < p.ep.cfg.rcv_wnd
    ensures PeerAll(p, ws, stamps, true).rnxt > p.rnxt
    decreases j
  {
    if j == 0 {
      AdvancesFirst(p, q, ws, stamps);
    } else {
      var p1 := PeerSegment(p, ws[0], stamps[0], true);
      RestGood(p, q, ws, stamps, true);
      RestGrows(p1, q, ws[1..], stamps[1..]);
      if p1.rnxt == p.rnxt { Advances(p1, q, ws[1..], stamps[1..], j - 1); }
    }
  }

  // ---- one flush heard by the other side ------------------------------------------------------

  lemma {:induction false} LinkedBack(p: Peer, q: Peer)
    requires Linked(p, q)
    ensures Linked(q, p)
  {
  }

  // The segments that p flushes can be taken in by q at once: none is half the word space old.
  lemma {:induction false} FlushHeard(p: Peer, q: Peer, full: bool, clock: Clock, w: Wire)
    requires Linked(p, q) && w in KcpSpec.Flush(p.ep, full, clock.probe, clock.now).emits
    ensures var p1 := FlushStep(p, full, clock).0; var st := StampOf(p, w);
            && SegmentGenuine(p1, w, st) && FreshSegment(q, p1, w, st)
            && st.una == p.rnxt && w.wnd == Unused(p.ep.rcv, p.ep.cfg.rcv_wnd)
            && (w.cmd == CMD_PUSH ==> p.una <= st.sn && p1.nxt - st.sn <= MAX_WINDOW)
  {
    FlushEmitsGenuine(p, q, full, clock, w);
    FlushUniform(p.ep, full, clock);
    FlushLinked(p, q, full, clock);
    if w.cmd == CMD_ACK { AckNumbers(p, q, full, clock, w); }
  }

  lemma {:induction false} AckNumbers(p: Peer, q: Peer, full: bool, clock: Clock, w: Wire)
    requires Linked(p, q) && w.cmd == CMD_ACK && w in KcpSpec.Flush(p.ep, full, clock.probe, clock.now).emits
    ensures FindAck(p.ackNums, w.sn) in p.ackNums
  {
    var c := Probe(p.ep.ctl, clock.probe);
    if w in Pass(p.ep, full, c, clock.now).emits {
      var k := PassEmits(p.ep, p.una, p.nxt, LogOf(p), full, c, clock.now, w, ArrivedSet(q));
    } else {
      AckAmong(p.ep, |p.ep.rcv.acks|, w);
      var j :| 0 <= j < |p.ep.rcv.acks| && p.ep.rcv.acks[j].sn == w.sn;
      FindAckFinds(p.ackNums, j);
    }
  }

  lemma {:induction false} AckAmong(ep: Endpoint, k: nat, w: Wire)
    requires k <= |ep.rcv.acks| && w in AckWires(ep, k)
    ensures exists j :: 0 <= j < |ep.rcv.acks| && ep.rcv.acks[j].sn == w.sn
  {
    if w in AckWires(ep, k - 1) { AckAmong(ep, k - 1, w); } else { assert ep.rcv.acks[k - 1].sn == w.sn; }
  }

  // A datagram of the flush, as q reads it.
  lemma {:induction false} PacketHeard(p: Peer, q: Peer, full: bool, clock: Clock, pkt: Packet)
    requires Linked(p, q)
    requires Carries(p, pkt, KcpSpec.Flush(p.ep, full, clock.probe, clock.now).emits)
    ensures var p1 := FlushStep(p, full, clock).0; var ws := Decode(q.ep.cfg.conv, pkt.bytes).0;
            && AllGood(q, p1, ws, pkt.stamps) && AllSay(ws, pkt.stamps, p.rnxt, Unused(p.ep.rcv, p.ep.cfg.rcv_wnd))
            && Fresh(q, p1, pkt)
            && (forall i :: 0 <= i < |ws| ==> pkt.stamps[i] == StampOf(p, ws[i]))
  {
    var p1 := FlushStep(p, full, clock).0;
    var ws := Decode(q.ep.cfg.conv, pkt.bytes).0;
    FlushLinked(p, q, full, clock);
    LinkedBack(p1, q);
    forall i | 0 <= i < |ws|
      ensures SegmentGenuine(p1, ws[i], pkt.stamps[i]) && FreshSegment(q, p1, ws[i], pkt.stamps[i])
      ensures pkt.stamps[i].una == p.rnxt && ws[i].wnd == Unused(p.ep.rcv, p.ep.cfg.rcv_wnd)
    {
      assert ws[i] in ws;
      FlushHeard(p, q, full, clock, ws[i]);
    }
  }
}
