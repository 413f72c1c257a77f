/** Progress of the pair: from every reachable state that is not deadlocked some continuation
    without further Sends returns everything that was accepted.  KcpDeadlock shows that from a
    deadlocked one none does.
 */
module KcpProgress {
  import opened Words
  import opened KcpWire
  import opened KcpSpec
  import opened KcpInvariant
  import opened KcpFlow
  import opened KcpPair
  import opened KcpHanded
  import opened KcpDelivery
  import opened KcpExchange

  // ---- continuations --------------------------------------------------------------

  function StepOf(act: Action): Step {
    match act case AtA(step) => step case AtB(step) => step
  }

  // No Send happens.
  ghost predicate Quiet(acts: seq<Action>) {
    forall act <- acts :: !StepOf(act).Send?
  }

  ghost predicate QuietRun(s: Pair, acts: seq<Action>, s1: Pair) {
    Quiet(acts) && IsRun(s, acts) && After(s, acts) == s1
  }

  // Some flushes, deliveries and Recvs lead from s to s1.
  ghost predicate Leads(s: Pair, s1: Pair) {
    forall k {:trigger Asked(k)} :: Asked(k) ==> exists acts :: QuietRun(s, acts, s1)
  }

  // Runs of any steps, and how they join.
  ghost predicate Path(ok: (Pair, Action) -> bool, next: (Pair, Action) -> Pair, s: Pair, acts: seq<Action>, s1: Pair)
    decreases |acts|
  {
    if acts == [] then s1 == s else ok(s, acts[0]) && Path(ok, next, next(s, acts[0]), acts[1..], s1)
  }

  lemma {:induction false} PathThen(ok: (Pair, Action) -> bool, next: (Pair, Action) -> Pair,
                                    s: Pair, a: seq<Action>, s1: Pair, b: seq<Action>, s2: Pair)
    requires Path(ok, next, s, a, s1) && Path(ok, next, s1, b, s2)
    ensures Path(ok, next, s, a + b, s2)
    decreases |a|
  {
    if a == [] {
      assert a + b == b;
    } else {
      assert (a + b)[0] == a[0] && (a + b)[1..] == a[1..] + b;
      PathThen(ok, next, next(s, a[0]), a[1..], s1, b, s2);
    }
  }

  ghost function Oks(): (Pair, Action) -> bool { (s: Pair, act: Action) => Timely(s, act) }

  ghost function Nexts(): (Pair, Action) -> Pair {
    (s: Pair, act: Action) => if Possible(s, act) then Next(s, act) else s
  }

  lemma {:induction false} RunIsPath(s: Pair, acts: seq<Action>, s1: Pair)
    ensures IsRun(s, acts) && After(s, acts) == s1 <==> Path(Oks(), Nexts(), s, acts, s1)
    decreases |acts|
  {
    if acts != [] && Timely(s, acts[0]) {
      assert Oks()(s, acts[0]) && Nexts()(s, acts[0]) == Next(s, acts[0]);
      RunIsPath(Next(s, acts[0]), acts[1..], s1);
    } else if acts != [] {
      assert !Oks()(s, acts[0]);
    }
  }

  lemma {:induction false} RunThen(s: Pair, a: seq<Action>, s1: Pair, b: seq<Action>, s2: Pair)
    requires IsRun(s, a) && After(s, a) == s1 && IsRun(s1, b) && After(s1, b) == s2
    ensures IsRun(s, a + b) && After(s, a + b) == s2
  {
    RunIsPath(s, a, s1);
    RunIsPath(s1, b, s2);
    PathThen(Oks(), Nexts(), s, a, s1, b, s2);
    RunIsPath(s, a + b, s2);
  }

  lemma {:induction false} LeadsSelf(s: Pair)
    ensures Leads(s, s)
  {
    assert QuietRun(s, [], s);
  }

  lemma {:induction false} QuietBoth(a: seq<Action>, b: seq<Action>)
    requires Quiet(a) && Quiet(b)
    ensures Quiet(a + b)
  {
  }

  lemma {:induction false} LeadsOn(s: Pair, s1: Pair, s2: Pair)
    requires Leads(s, s1) && Leads(s1, s2)
    ensures Leads(s, s2)
  {
    assert Asked(0);
    var a :| QuietRun(s, a, s1);
    var b :| QuietRun(s1, b, s2);
    RunThen(s, a, s1, b, s2);
    QuietBoth(a, b);
    assert QuietRun(s, a + b, s2);
  }

  lemma {:induction false} LeadsStep(s: Pair, act: Action)
    requires Timely(s, act) && !StepOf(act).Send?
    ensures Possible(s, act) && Leads(s, Next(s, act))
  {
    OneStep(s, act);
    assert QuietRun(s, [act], Next(s, act));
  }

  lemma {:induction false} OneStep(s: Pair, act: Action)
    requires Timely(s, act)
    ensures Possible(s, act) && IsRun(s, [act]) && After(s, [act]) == Next(s, act)
  {
    var acts := [act];
    assert acts[0] == act && acts[1..] == [];
    assert IsRun(Next(s, act), []) && After(Next(s, act), []) == Next(s, act);
    assert IsRun(s, acts) && After(s, acts) == After(Next(s, act), acts[1..]);
  }

  // The invariant of the pair.
  ghost predicate Sane(s: Pair) {
    && s.a.ep.cfg.Valid() && s.b.ep.cfg.Valid() && s.a.ep.cfg.conv == s.b.ep.cfg.conv
    && forall k {:trigger Asked(k)} :: Asked(k) ==> PairInv(s)
  }

  lemma {:induction false} SaneNext(s: Pair, act: Action)
    requires Sane(s) && Timely(s, act) && !StepOf(act).Send?
    ensures Possible(s, act) && Leads(s, Next(s, act)) && Sane(Next(s, act))
  {
    assert Asked(0);
    NextKeepsInv(s, act);
    LeadsStep(s, act);
  }

  // ---- single steps ------------------------------------------------------------------

  lemma {:induction false} FlushA(s: Pair, full: bool, clock: Clock) returns (s1: Pair)
    requires Sane(s)
    ensures Leads(s, s1) && Sane(s1)
    ensures var (a, out) := FlushStep(s.a, full, clock); s1 == Pair(a, s.b, s.toB + out, s.toA)
  {
    SaneNext(s, AtA(Flush(full, clock)));
    s1 := Next(s, AtA(Flush(full, clock)));
  }

  lemma {:induction false} FlushB(s: Pair, full: bool, clock: Clock) returns (s1: Pair)
    requires Sane(s)
    ensures Leads(s, s1) && Sane(s1)
    ensures var (b, out) := FlushStep(s.b, full, clock); s1 == Pair(s.a, b, s.toB, s.toA + out)
  {
    SaneNext(s, AtB(Flush(full, clock)));
    s1 := Next(s, AtB(Flush(full, clock)));
  }

  lemma {:induction false} DeliverA(s: Pair, pkt: Packet, clock: Clock) returns (s1: Pair)
    requires Sane(s) && pkt in s.toA && Fresh(s.a, s.b, pkt)
    ensures Leads(s, s1) && Sane(s1)
    ensures var (a, out) := DeliverStep(s.a, pkt, true, false, clock); s1 == Pair(a, s.b, s.toB + out, s.toA)
  {
    SaneNext(s, AtA(Deliver(pkt, true, false, clock)));
    s1 := Next(s, AtA(Deliver(pkt, true, false, clock)));
  }

  lemma {:induction false} DeliverB(s: Pair, pkt: Packet, clock: Clock) returns (s1: Pair)
    requires Sane(s) && pkt in s.toB && Fresh(s.b, s.a, pkt)
    ensures Leads(s, s1) && Sane(s1)
    ensures var (b, out) := DeliverStep(s.b, pkt, true, false, clock); s1 == Pair(s.a, b, s.toB, s.toA + out)
  {
    SaneNext(s, AtB(Deliver(pkt, true, false, clock)));
    s1 := Next(s, AtB(Deliver(pkt, true, false, clock)));
  }

  // ---- hearing and answering -----------------------------------------------------------

  // p once it has taken in the segments of a datagram, before it responds.
  function Took(p: Peer, pkt: Packet, clock: Clock): Peer
    requires p.ep.cfg.Valid() && |pkt.stamps| == |Decode(p.ep.cfg.conv, pkt.bytes).0|
  {
    var ws := Decode(p.ep.cfg.conv, pkt.bytes).0;
    var p1 := PeerAll(p, ws, pkt.stamps, true);
    p1.(ep := Settle(p1.ep, p.ep.snd.una, AckTimes(ws), true, clock.rtt))
  }

  lemma {:induction false} SettleSame(ep: Endpoint, before: u32, acks: seq<u32>, current: u32)
    requires ep.cfg.Valid()
    ensures var ep1 := Settle(ep, before, acks, true, current);
            && ep1.cfg == ep.cfg && ep1.snd == ep.snd && ep1.rcv == ep.rcv
            && ep1.ctl.rmt_wnd == ep.ctl.rmt_wnd && ep1.ctl.askTell == ep.ctl.askTell
  {
  }

  // Settling leaves alone what the other side told p and what p owes it.
  lemma {:induction false} TookSame(p: Peer, pkt: Packet, clock: Clock)
    requires p.ep.cfg.Valid() && |pkt.stamps| == |Decode(p.ep.cfg.conv, pkt.bytes).0|
    ensures var p1, p2 := PeerAll(p, Decode(p.ep.cfg.conv, pkt.bytes).0, pkt.stamps, true), Took(p, pkt, clock);
            && p2.una == p1.una && p2.rnxt == p1.rnxt && p2.ackNums == p1.ackNums && p2.ep.rcv == p1.ep.rcv
            && p2.ep.snd == p1.ep.snd && p2.ep.cfg == p1.ep.cfg
            && p2.ep.ctl.rmt_wnd == p1.ep.ctl.rmt_wnd && p2.ep.ctl.askTell == p1.ep.ctl.askTell
  {
    var ws := Decode(p.ep.cfg.conv, pkt.bytes).0;
    SettleSame(PeerAll(p, ws, pkt.stamps, true).ep, p.ep.snd.una, AckTimes(ws), clock.rtt);
  }

  lemma {:induction false} FlushSame(p: Peer, full: bool, clock: Clock)
    requires p.ep.cfg.Valid()
    ensures var p1 := FlushStep(p, full, clock).0;
            && p1.una == p.una && p1.rnxt == p.rnxt && p1.ep.rcv == p.ep.rcv.(acks := []) && p1.ackNums == []
            && p1.ep.ctl.rmt_wnd == p.ep.ctl.rmt_wnd && p1.ep.cfg == p.ep.cfg
  {
    var c := Probe(p.ep.ctl, clock.probe);
    PassControlKeeps(p.ep, c, Pass(p.ep, full, c, clock.now));
  }

  lemma {:induction false} RespondSame(p: Peer, urgent: bool, clock: Clock)
    requires p.ep.cfg.Valid()
    ensures var p1 := RespondStep(p, urgent, false, clock).0;
            && p1.una == p.una && p1.rnxt == p.rnxt && p1.ep.ctl.rmt_wnd == p.ep.ctl.rmt_wnd
            && p1.ep.rcv.queue == p.ep.rcv.queue
  {
    if FlushDue(p.ep, urgent, false) { FlushSame(p, urgent, clock); }
  }

  lemma {:induction false} TookLinked(p: Peer, q: Peer, pkt: Packet, clock: Clock)
    requires var ws := Decode(p.ep.cfg.conv, pkt.bytes).0; AllGood(p, q, ws, pkt.stamps)
    ensures Linked(Took(p, pkt, clock), q) && Calm(p, Took(p, pkt, clock))
  {
    var ws := Decode(p.ep.cfg.conv, pkt.bytes).0;
    AllSegments(p, q, ws, pkt.stamps, true);
    var p1 := PeerAll(p, ws, pkt.stamps, true);
    SettleLinked(p1, q, p.ep.snd.una, AckTimes(ws), true, clock.rtt);
    CalmTransitive(p, p1, Took(p, pkt, clock));
  }

  // The words of p stand for its numbers.
  predicate Counted(p: Peer) {
    p.ep.snd.nxt == Wrap(p.nxt) && |p.ackNums| == |p.ep.rcv.acks|
  }

  // A response that is not a flush leaves everything to the next flush.
  lemma {:induction false} RespondIs(p: Peer, urgent: bool, clock: Clock)
    requires p.ep.cfg.Valid() && Counted(p)
    ensures var r := RespondStep(p, urgent, false, clock);
            if FlushDue(p.ep, urgent, false) then r == FlushStep(p, urgent, clock)
            else r == (p.(told := r.0.told), {}) && FlushStep(r.0, false, clock) == FlushStep(p, false, clock)
  {
    if !FlushDue(p.ep, urgent, false) {
      NoPackets(p);
      AdvanceTo(p.nxt, p.nxt);
      assert p.sent + Contents(p.ep.snd.queue[..0]) == p.sent;
      var r := FlushPeer(p, p.ep);
      assert r == p.(told := r.told);
      ToldAgree(p, r.told, KcpSpec.Flush(p.ep, false, clock.probe, clock.now).emits);
    }
  }

  lemma {:induction false} ToldAgree(p: Peer, t: nat, ws: seq<Wire>)
    ensures Packets(p.(told := t), ws) == Packets(p, ws)
  {
    var p1 := p.(told := t);
    forall d | d in Pack(ws, p.ep.cfg.mtu) ensures PacketOf(p1, d) == PacketOf(p, d) {
      var ds := Decode(p.ep.cfg.conv, d).0;
      assert forall i :: 0 <= i < |ds| ==> StampOf(p1, ds[i]) == StampOf(p, ds[i]);
      assert PacketOf(p1, d).stamps == PacketOf(p, d).stamps;
    }
  }

  // b takes in a datagram and then flushes, either in response or of its own.
  lemma {:induction false} Answers(s: Pair, pkt: Packet, clock: Clock, b: Peer) returns (s1: Pair, full: bool)
    requires Sane(s) && pkt in s.toB && Fresh(s.b, s.a, pkt)
    requires |pkt.bytes| >= OVERHEAD && Decode(s.b.ep.cfg.conv, pkt.bytes).1 == 0
    requires b == Took(s.b, pkt, clock) && b.ep.cfg == s.b.ep.cfg && Counted(b)
    ensures Leads(s, s1) && Sane(s1) && s1.a == s.a
    ensures var (b1, out) := FlushStep(b, full, clock); s1.b == b1 && out <= s1.toA
  {
    var urgent := AnyUrgent(s.b.ep, Decode(s.b.ep.cfg.conv, pkt.bytes).0, true);
    DeliverSplits(s.b, pkt, true, false, clock);
    RespondIs(b, urgent, clock);
    var s2 := DeliverB(s, pkt, clock);
    if FlushDue(b.ep, urgent, false) {
      s1, full := s2, urgent;
    } else {
      full := false;
      s1 := FlushB(s2, false, clock);
      LeadsOn(s, s2, s1);
    }
  }

  // ---- an exchange -----------------------------------------------------------------------

  // a knows what b has and how much room it has left.
  predicate Synced(s: Pair) {
    s.a.una == s.b.rnxt && s.a.ep.ctl.rmt_wnd == Unused(s.b.ep.rcv, s.b.ep.cfg.rcv_wnd)
  }

  // A datagram of a flush of p that carries w, as q will read it.
  ghost predicate Sent(p: Peer, q: Peer, full: bool, clock: Clock, pkt: Packet)
    requires p.ep.cfg.Valid()
  {
    var (p1, out) := FlushStep(p, full, clock);
    var ws := Decode(q.ep.cfg.conv, pkt.bytes).0;
    && pkt in out && Fresh(q, p1, pkt) && |pkt.bytes| >= OVERHEAD && Decode(q.ep.cfg.conv, pkt.bytes).1 == 0
    && AllGood(q, p1, ws, pkt.stamps) && AllSay(ws, pkt.stamps, p.rnxt, Unused(p.ep.rcv, p.ep.cfg.rcv_wnd))
    && (forall i :: 0 <= i < |ws| ==> pkt.stamps[i] == StampOf(p, ws[i]))
  }

  lemma {:induction false} SendWire(p: Peer, q: Peer, full: bool, clock: Clock, w: Wire) returns (pkt: Packet)
    requires Linked(p, q)
    requires w in KcpSpec.Flush(p.ep, full, clock.probe, clock.now).emits
    ensures Sent(p, q, full, clock, pkt) && w in Decode(q.ep.cfg.conv, pkt.bytes).0
  {
    FlushFits(p.ep, full, clock.probe, clock.now);
    pkt := PacketWith(p, KcpSpec.Flush(p.ep, full, clock.probe, clock.now).emits, w);
    PacketHeard(p, q, full, clock, pkt);
  }

  // A segment of the datagram asks q for an answer, or is what q waits for.
  lemma {:induction false} IsAsked(q: Peer, p: Peer, pkt: Packet, clock: Clock, j: nat)
    requires AllGood(q, p, Decode(q.ep.cfg.conv, pkt.bytes).0, pkt.stamps)
    requires var ws := Decode(q.ep.cfg.conv, pkt.bytes).0; j < |ws| && Asks(q, p, ws[j], pkt.stamps[j])
    ensures Owes(Took(q, pkt, clock))
    ensures (Decode(q.ep.cfg.conv, pkt.bytes).0[j].cmd == CMD_PUSH && pkt.stamps[j].sn == q.rnxt &&
             |q.ep.rcv.queue| < q.ep.cfg.rcv_wnd) ==> Took(q, pkt, clock).rnxt > q.rnxt
  {
    var ws := Decode(q.ep.cfg.conv, pkt.bytes).0;
    TookSame(q, pkt, clock);
    AskedOwes(q, p, ws, pkt.stamps, j);
    if ws[j].cmd == CMD_PUSH && pkt.stamps[j].sn == q.rnxt && |q.ep.rcv.queue| < q.ep.cfg.rcv_wnd {
      Advances(q, p, ws, pkt.stamps, j);
    }
  }

  // a hears the answer.
  lemma {:induction false} HearsBack(p: Peer, q: Peer, full: bool, clock: Clock) returns (pkt: Packet)
    requires Linked(p, q) && Owes(p)
    ensures Sent(p, q, full, clock, pkt)
    ensures Took(q, pkt, clock).una == p.rnxt
    ensures Took(q, pkt, clock).ep.ctl.rmt_wnd == Unused(p.ep.rcv, p.ep.cfg.rcv_wnd)
  {
    FlushTells(p.ep, full, clock);
    var w := if p.ep.rcv.acks != [] then AckWire(p.ep, LastAck(p.ep)) else ProbeWire(p.ep, CMD_WINS);
    pkt := SendWire(p, q, full, clock, w);
    TookSame(q, pkt, clock);
    LearnsWindow(q, FlushStep(p, full, clock).0, Decode(q.ep.cfg.conv, pkt.bytes).0, pkt.stamps, p.rnxt,
                 Unused(p.ep.rcv, p.ep.cfg.rcv_wnd));
  }

  // The same relation between two endpoints as Linked.
  ghost predicate Tied(p: Peer, q: Peer) {
    p.ep.cfg.Valid() && q.ep.cfg.Valid() && forall k {:trigger Asked(k)} :: Asked(k) ==> Linked(p, q)
  }

  // q can take in the datagram of a flush of p.
  predicate Hearable(p: Peer, q: Peer, full: bool, clock: Clock, pkt: Packet)
    requires p.ep.cfg.Valid()
  {
    var (p1, out) := FlushStep(p, full, clock);
    pkt in out && Fresh(q, p1, pkt) && |pkt.bytes| >= OVERHEAD && Decode(q.ep.cfg.conv, pkt.bytes).1 == 0
  }

  lemma {:induction false} Ask(s: Pair, full: bool, clock: Clock, w: Wire) returns (pkt: Packet, b: Peer)
    requires Sane(s)
    requires w in KcpSpec.Flush(s.a.ep, full, clock.probe, clock.now).emits
    requires Asks(s.b, FlushStep(s.a, full, clock).0, w, StampOf(s.a, w))
    ensures Hearable(s.a, s.b, full, clock, pkt) && b == Took(s.b, pkt, clock) && b.ep.cfg == s.b.ep.cfg && Counted(b)
    ensures Tied(b, FlushStep(s.a, full, clock).0) && Owes(b)
    ensures Returned(b) == Returned(s.b) && b.rnxt >= s.b.rnxt
    ensures w.cmd == CMD_PUSH && StampOf(s.a, w).sn == s.b.rnxt && |s.b.ep.rcv.queue| < s.b.ep.cfg.rcv_wnd ==>
              b.rnxt > s.b.rnxt
  {
    var j;
    pkt, j := AskPacket(s, full, clock, w);
    b := Hears(s.b, FlushStep(s.a, full, clock).0, pkt, clock, j);
  }

  // The segments of the datagram are for q to take in from p.
  ghost predicate Legible(q: Peer, p: Peer, pkt: Packet) {
    var ws := Decode(q.ep.cfg.conv, pkt.bytes).0;
    && q.ep.cfg.Valid() && |ws| == |pkt.stamps|
    && forall k {:trigger Asked(k)} :: Asked(k) ==> AllGood(q, p, ws, pkt.stamps)
  }

  lemma {:induction false} AskPacket(s: Pair, full: bool, clock: Clock, w: Wire) returns (pkt: Packet, j: nat)
    requires Sane(s) && w in KcpSpec.Flush(s.a.ep, full, clock.probe, clock.now).emits
    ensures Hearable(s.a, s.b, full, clock, pkt) && Legible(s.b, FlushStep(s.a, full, clock).0, pkt)
    ensures var ws := Decode(s.b.ep.cfg.conv, pkt.bytes).0; j < |ws| && ws[j] == w && pkt.stamps[j] == StampOf(s.a, w)
  {
    assert Asked(0);
    pkt := SendWire(s.a, s.b, full, clock, w);
    j := IndexOf(Decode(s.b.ep.cfg.conv, pkt.bytes).0, w);
  }

  lemma {:induction false} IndexOf(ws: seq<Wire>, w: Wire) returns (j: nat)
    requires w in ws
    ensures j < |ws| && ws[j] == w
  {
    j :| 0 <= j < |ws| && ws[j] == w;
  }

  lemma {:induction false} Hears(q: Peer, p: Peer, pkt: Packet, clock: Clock, j: nat) returns (q2: Peer)
    requires Legible(q, p, pkt)
    requires var ws := Decode(q.ep.cfg.conv, pkt.bytes).0; j < |ws| && Asks(q, p, ws[j], pkt.stamps[j])
    ensures q2 == Took(q, pkt, clock) && q2.ep.cfg == q.ep.cfg && Counted(q2)
    ensures Tied(q2, p) && Owes(q2)
    ensures Returned(q2) == Returned(q) && q2.rnxt >= q.rnxt
    ensures (Decode(q.ep.cfg.conv, pkt.bytes).0[j].cmd == CMD_PUSH && pkt.stamps[j].sn == q.rnxt &&
             |q.ep.rcv.queue| < q.ep.cfg.rcv_wnd) ==> q2.rnxt > q.rnxt
  {
    assert Asked(0);
    q2 := Took(q, pkt, clock);
    TookLinked(q, p, pkt, clock);
    IsAsked(q, p, pkt, clock, j);
  }

  lemma {:induction false} Reply(b: Peer, a: Peer, full: bool, clock: Clock) returns (pkt: Packet)
    requires Tied(b, a) && Owes(b)
    ensures Hearable(b, a, full, clock, pkt)
    ensures var (a1, out) := DeliverStep(a, pkt, true, false, clock);
            a1.una == b.rnxt && a1.ep.ctl.rmt_wnd == Unused(b.ep.rcv, b.ep.cfg.rcv_wnd)
  {
    assert Asked(0);
    pkt := HearsBack(b, a, full, clock);
    DeliverSplits(a, pkt, true, false, clock);
    RespondSame(Took(a, pkt, clock), AnyUrgent(a.ep, Decode(a.ep.cfg.conv, pkt.bytes).0, true), clock);
  }

  // What a asks, b answers: afterwards a knows where b is.
  lemma {:induction false} Exchange(s: Pair, full: bool, clock: Clock, w: Wire) returns (s1: Pair)
    requires Sane(s)
    requires w in KcpSpec.Flush(s.a.ep, full, clock.probe, clock.now).emits
    requires Asks(s.b, FlushStep(s.a, full, clock).0, w, StampOf(s.a, w))
    ensures Leads(s, s1) && Sane(s1) && Synced(s1)
    ensures Returned(s1.b) == Returned(s.b) && s1.b.rnxt >= s.b.rnxt
    ensures w.cmd == CMD_PUSH && StampOf(s.a, w).sn == s.b.rnxt && |s.b.ep.rcv.queue| < s.b.ep.cfg.rcv_wnd ==>
              s1.b.rnxt > s.b.rnxt
  {
    var s0, b, f := ExchangeOut(s, full, clock, w);
    s1 := ExchangeBack(s0, b, f, clock);
    LeadsOn(s, s0, s1);
  }

  // b has answered with a flush, from the state b.
  ghost predicate Answered(s: Pair, b: Peer, full: bool, clock: Clock) {
    && Tied(b, s.a) && Owes(b)
    && var (b1, out) := FlushStep(b, full, clock); s.b == b1 && out <= s.toA
  }

  lemma {:induction false} ExchangeOut(s: Pair, full: bool, clock: Clock, w: Wire)
    returns (s1: Pair, b: Peer, f: bool)
    requires Sane(s)
    requires w in KcpSpec.Flush(s.a.ep, full, clock.probe, clock.now).emits
    requires Asks(s.b, FlushStep(s.a, full, clock).0, w, StampOf(s.a, w))
    ensures Leads(s, s1) && Sane(s1) && Answered(s1, b, f, clock)
    ensures Returned(b) == Returned(s.b) && b.rnxt >= s.b.rnxt
    ensures w.cmd == CMD_PUSH && StampOf(s.a, w).sn == s.b.rnxt && |s.b.ep.rcv.queue| < s.b.ep.cfg.rcv_wnd ==>
              b.rnxt > s.b.rnxt
  {
    var pkt;
    pkt, b := Ask(s, full, clock, w);
    FlushSame(s.a, full, clock);
    var sa := FlushA(s, full, clock);
    s1, f := Answers(sa, pkt, clock, b);
    LeadsOn(s, sa, s1);
  }

  lemma {:induction false} ExchangeBack(s: Pair, b: Peer, full: bool, clock: Clock) returns (s1: Pair)
    requires Sane(s) && Answered(s, b, full, clock)
    ensures Leads(s, s1) && Sane(s1) && Synced(s1) && s1.b.rnxt == b.rnxt && Returned(s1.b) == Returned(b)
  {
    FlushSame(b, full, clock);
    var pkt := Reply(b, s.a, full, clock);
    s1 := DeliverA(s, pkt, clock);
  }

  // ---- what continuations keep ----------------------------------------------------------------

  ghost predicate KeptBy(p: Peer, p1: Peer) {
    && p1.ep.cfg == p.ep.cfg && LogOf(p1) == LogOf(p) && p1.accepted == p.accepted && p1.taken == p.taken
    && p.nxt <= p1.nxt && p.rnxt <= p1.rnxt && Returned(p) <= Returned(p1)
  }

  ghost predicate Kept(s: Pair, s1: Pair) {
    KeptBy(s.a, s1.a) && KeptBy(s.b, s1.b)
  }

  lemma {:induction false} StepKept(s: Pair, step: Step)
    requires PairInv(s) && Enabled(s, step) && !step.Send?
    ensures Kept(s, StepAtA(s, step))
  {
    if step.Recv? {
      RecvRecvSide(s.b, s.a, step.cap);
      RecvSame(s.a, step.cap);
      RecvKept(s.a, RecvStep(s.a, step.cap));
    } else {
      CalmStep(s, step);
    }
  }

  lemma {:induction false} RecvKept(p: Peer, p1: Peer)
    requires p1.ep.cfg == p.ep.cfg && p1.ep.snd == p.ep.snd && p1.sent == p.sent && p1.nxt == p.nxt
    requires p1.accepted == p.accepted && p1.taken == p.taken && p.rnxt <= p1.rnxt && Returned(p) <= Returned(p1)
    ensures KeptBy(p, p1)
  {
  }

  lemma {:induction false} NextKept(s: Pair, act: Action)
    requires PairInv(s) && Timely(s, act) && !StepOf(act).Send?
    ensures Kept(s, Next(s, act))
  {
    match act {
      case AtA(step) => StepKept(s, step);
      case AtB(step) => StepKept(Swap(s), step);
    }
  }

  lemma {:induction false} RunKept(s: Pair, acts: seq<Action>)
    requires Sane(s) && IsRun(s, acts) && Quiet(acts)
    ensures Kept(s, After(s, acts))
    decreases acts
  {
    if acts != [] {
      assert acts[0] in acts;
      assert PairInv(s) by { assert Asked(0); }
      NextKept(s, acts[0]);
      SaneOn(s, acts[0]);
      forall act | act in acts[1..] ensures act in acts { }
      RunKept(Next(s, acts[0]), acts[1..]);
    }
  }

  lemma {:induction false} LeadsKept(s: Pair, s1: Pair)
    requires Sane(s) && Leads(s, s1)
    ensures Kept(s, s1)
  {
    assert Asked(0);
    var acts :| QuietRun(s, acts, s1);
    RunKept(s, acts);
  }

  // ---- a blocked sender -------------------------------------------------------------------------

  // The send window, once the congestion window has opened.
  function Window(p: Peer): u32 {
    var w: u32 := Min(p.ep.cfg.snd_wnd, p.ep.ctl.rmt_wnd);
    if p.ep.cfg.nocwnd then w else Min(Max(p.ep.ctl.cwnd, 1), w)
  }

  // Everything in the window has been acknowledged, so that nothing is ever sent again, nothing
  // new can enter it, and the peer's window is not known to be closed, so that nothing is asked.
  predicate Spent(p: Peer) {
    && (forall k :: 0 <= k < |p.ep.snd.buf| ==> p.ep.snd.buf[k].acked)
    && p.ep.ctl.rmt_wnd != 0 && (p.ep.snd.queue == [] || |p.ep.snd.buf| >= Window(p))
  }

  // Something waits to enter a window that is full of entries acknowledged one by one.
  predicate Blocked(p: Peer) {
    Spent(p) && p.ep.snd.queue != [] && p.ep.snd.buf != []
  }

  const CALM: Clock := Clock(0, 0, Always(0))

  // A flush that transmits nothing.
  lemma {:induction false} QuietFlush(p: Peer)
    requires p.ep.cfg.Valid()
    ensures var p1 := FlushStep(p, false, CALM).0; var n := Slots(p.ep.snd, EffectiveWindow(p.ep.cfg, p.ep.ctl));
            && p1.ep.snd == Slide(p.ep.snd, n, p.ep.cfg.conv) && p1.ep.cfg == p.ep.cfg
            && p1.ep.ctl.rmt_wnd == p.ep.ctl.rmt_wnd
            && p1.ep.ctl.cwnd == (if p.ep.cfg.nocwnd then p.ep.ctl.cwnd else Max(p.ep.ctl.cwnd, 1))
            && (p.ep.ctl.rmt_wnd == 0 && p.ep.ctl.probe_wait == 0 ==> p1.ep.ctl.probe_wait != 0)
  {
    var c := Probe(p.ep.ctl, 0);
    assert EffectiveWindow(p.ep.cfg, c) == EffectiveWindow(p.ep.cfg, p.ep.ctl);
  }

  // A sender that knows where the other side is, is not blocked.
  lemma {:induction false} SyncedMoves(s: Pair)
    requires Sane(s) && Synced(s)
    ensures !Blocked(s.a) && (!Full(s.b) && s.a.ep.snd.buf != [] ==> !s.a.ep.snd.buf[0].acked)
  {
    SaneSides(s);
    if s.a.ep.snd.buf != [] && !Full(s.b) { FrontWaits(s.a, s.b); }
  }

  lemma {:induction false} FrontWaits(p: Peer, q: Peer)
    requires SendSide(p, q) && q.ep.rcv.nxt == Wrap(q.rnxt) && Settled(q.ep.cfg.rcv_wnd, q.ep.rcv)
    requires p.una == q.rnxt && p.ep.snd.buf != [] && !Full(q)
    ensures !p.ep.snd.buf[0].acked
  {
    assert p.ep.snd.buf[0].acked ==> p.una + 0 in ArrivedSet(q);
  }

  // Windows that leave room for what is in flight within half the word space.
  const WIDE := HALF - MAX_WINDOW

  // a transmits its entry k again, and b answers.
  lemma {:induction false} Resend(s: Pair, k: nat) returns (s1: Pair)
    requires Sane(s) && s.b.ep.cfg.rcv_wnd <= WIDE
    requires k < |s.a.ep.snd.buf| && !s.a.ep.snd.buf[k].acked && s.a.una + k < s.b.rnxt + s.b.ep.cfg.rcv_wnd
    ensures Leads(s, s1) && Sane(s1) && Synced(s1)
    ensures Returned(s1.b) == Returned(s.b) && s1.b.rnxt >= s.b.rnxt
    ensures s.a.una + k == s.b.rnxt && |s.b.ep.rcv.queue| < s.b.ep.cfg.rcv_wnd ==> s1.b.rnxt > s.b.rnxt
  {
    var clock := Clock(0, 0, Always(s.a.ep.snd.buf[k].resendts));
    var w := ResentIn(s, k, clock);
    s1 := Exchange(s, true, clock, w);
  }

  lemma {:induction false} ResentIn(s: Pair, k: nat, clock: Clock) returns (w: Wire)
    requires Sane(s) && k < |s.a.ep.snd.buf| && !s.a.ep.snd.buf[k].acked
    requires clock == Clock(0, 0, Always(s.a.ep.snd.buf[k].resendts)) && s.a.una + k < s.b.rnxt + s.b.ep.cfg.rcv_wnd
    requires s.b.ep.cfg.rcv_wnd <= WIDE
    ensures w in KcpSpec.Flush(s.a.ep, true, clock.probe, clock.now).emits && w.cmd == CMD_PUSH
    ensures StampOf(s.a, w).sn == s.a.una + k && Asks(s.b, FlushStep(s.a, true, clock).0, w, StampOf(s.a, w))
  {
    assert Asked(0);
    w := ResentAt(s.a, s.b, k, clock);
  }

  lemma {:induction false} ResentAt(p: Peer, q: Peer, k: nat, clock: Clock) returns (w: Wire)
    requires Linked(p, q) && k < |p.ep.snd.buf| && !p.ep.snd.buf[k].acked
    requires clock == Clock(0, 0, Always(p.ep.snd.buf[k].resendts)) && p.una + k < q.rnxt + q.ep.cfg.rcv_wnd
    requires q.ep.cfg.rcv_wnd <= WIDE
    ensures w in KcpSpec.Flush(p.ep, true, clock.probe, clock.now).emits && w.cmd == CMD_PUSH
    ensures StampOf(p, w).sn == p.una + k && Asks(q, FlushStep(p, true, clock).0, w, StampOf(p, w))
  {
    FlushResends(p.ep, k, 0);
    w :| w in KcpSpec.Flush(p.ep, true, 0, clock.now).emits && w.cmd == CMD_PUSH && w.sn == Add32(p.ep.snd.una, k);
    WrapAdd(p.una, k);
    AdvanceTo(p.una, p.una + k);
    FlushHeard(p, q, true, clock, w);
  }

  // The piece q waits for has been numbered: it waits at p, unacknowledged.
  lemma {:induction false} NextWaitsAt(p: Peer, q: Peer)
    requires SendSide(p, q) && q.ep.rcv.nxt == Wrap(q.rnxt) && Settled(q.ep.cfg.rcv_wnd, q.ep.rcv)
    requires q.told <= q.rnxt < p.nxt && |q.ep.rcv.queue| < q.ep.cfg.rcv_wnd
    ensures p.una <= q.rnxt && q.rnxt - p.una < |p.ep.snd.buf| && !p.ep.snd.buf[q.rnxt - p.una].acked
  {
    var k := q.rnxt - p.una;
    assert p.ep.snd.buf[k].acked ==> p.una + k in ArrivedSet(q);
  }

  lemma {:induction false} NextWaits(s: Pair)
    requires Sane(s) && s.b.rnxt < s.a.nxt && |s.b.ep.rcv.queue| < s.b.ep.cfg.rcv_wnd
    ensures s.a.una <= s.b.rnxt && s.b.rnxt - s.a.una < |s.a.ep.snd.buf| && !s.a.ep.snd.buf[s.b.rnxt - s.a.una].acked
  {
    SaneSides(s);
    NextWaitsAt(s.a, s.b);
  }

  lemma {:induction false} SaneSides(s: Pair)
    requires Sane(s)
    ensures SendSide(s.a, s.b) && s.b.ep.rcv.nxt == Wrap(s.b.rnxt) && Settled(s.b.ep.cfg.rcv_wnd, s.b.ep.rcv)
    ensures s.b.told <= s.b.rnxt
  {
    assert Asked(0);
  }

  lemma {:induction false} SendNext(s: Pair) returns (s1: Pair)
    requires Sane(s) && s.b.rnxt < s.a.nxt && |s.b.ep.rcv.queue| < s.b.ep.cfg.rcv_wnd <= WIDE
    ensures Leads(s, s1) && Sane(s1) && Synced(s1) && s1.b.rnxt > s.b.rnxt && Returned(s1.b) == Returned(s.b)
  {
    NextWaits(s);
    s1 := Resend(s, s.b.rnxt - s.a.una);
  }

  // a asks for the window of b, which it takes to be closed.
  lemma {:induction false} AskWindow(s: Pair) returns (s1: Pair)
    requires Sane(s)
    requires s.a.ep.ctl.rmt_wnd == 0 && s.a.ep.ctl.probe_wait != 0
    ensures Leads(s, s1) && Sane(s1) && Synced(s1) && Returned(s1.b) == Returned(s.b) && s1.b.rnxt >= s.b.rnxt
  {
    var clock := Clock(0, s.a.ep.ctl.ts_probe, Always(0));
    FlushTells(s.a.ep, false, clock);
    s1 := Exchange(s, false, clock, ProbeWire(s.a.ep, CMD_WASK));
  }

  lemma {:induction false} SyncClosed(s: Pair) returns (s1: Pair)
    requires Sane(s) && s.a.ep.ctl.rmt_wnd == 0
    ensures Leads(s, s1) && Sane(s1) && Synced(s1) && Returned(s1.b) == Returned(s.b) && s1.b.rnxt >= s.b.rnxt
  {
    if s.a.ep.ctl.probe_wait != 0 {
      s1 := AskWindow(s);
    } else {
      QuietFlush(s.a);
      var s0 := FlushA(s, false, CALM);
      s1 := AskWindow(s0);
      LeadsOn(s, s0, s1);
    }
  }

  // Nothing new can be sent, but a is not blocked: it finds out where b is.
  lemma {:induction false} Sync(s: Pair) returns (s1: Pair)
    requires Sane(s) && s.b.ep.cfg.rcv_wnd <= WIDE && s.b.rnxt == s.a.nxt
    requires s.a.ep.ctl.rmt_wnd == 0 || exists k :: 0 <= k < |s.a.ep.snd.buf| && !s.a.ep.snd.buf[k].acked
    ensures Leads(s, s1) && Sane(s1) && Synced(s1) && Returned(s1.b) == Returned(s.b) && s1.b.rnxt >= s.b.rnxt
  {
    if s.a.ep.ctl.rmt_wnd != 0 {
      var k :| 0 <= k < |s.a.ep.snd.buf| && !s.a.ep.snd.buf[k].acked;
      Numbers(s);
      s1 := Resend(s, k);
    } else {
      s1 := SyncClosed(s);
    }
  }

  lemma {:induction false} Numbers(s: Pair)
    requires Sane(s)
    ensures s.a.nxt == s.a.una + |s.a.ep.snd.buf| && |LogOf(s.a)| == s.a.nxt + |s.a.ep.snd.queue|
    ensures s.a.una <= s.b.rnxt <= s.a.nxt && s.b.ep.cfg.rcv_wnd > 0 && Counted(s.a)
    ensures forall seg <- s.a.ep.snd.queue :: !seg.acked
  {
    assert Asked(0);
  }

  // ---- new pieces enter the window ------------------------------------------------------------------

  lemma {:induction false} QuietFlushSlides(p: Peer)
    requires p.ep.cfg.Valid() && Counted(p) && p.ep.snd.queue != []
    ensures |p.ep.snd.buf| < EffectiveWindow(p.ep.cfg, p.ep.ctl) ==> FlushStep(p, false, CALM).0.nxt > p.nxt
  {
    FlushNumbers(p, false, CALM);
    assert EffectiveWindow(p.ep.cfg, Probe(p.ep.ctl, 0)) == EffectiveWindow(p.ep.cfg, p.ep.ctl);
  }

  // There is room in the window: at the second flush at the latest, a piece is numbered.
  lemma {:induction false} Open(s: Pair) returns (s1: Pair)
    requires Sane(s) && s.a.ep.snd.queue != [] && |s.a.ep.snd.buf| < Window(s.a)
    ensures Leads(s, s1) && Sane(s1) && s1.a.nxt > s.a.nxt && s1.b == s.b
  {
    Numbers(s);
    QuietFlush(s.a);
    QuietFlushSlides(s.a);
    s1 := FlushA(s, false, CALM);
    if s1.a.nxt <= s.a.nxt {
      var s0 := s1;
      Numbers(s0);
      QuietFlushSlides(s0.a);
      s1 := FlushA(s0, false, CALM);
      LeadsOn(s, s0, s1);
    }
  }

  // b has room, and the announcement of it, on 16 bits, is not zero.
  predicate Admits(b: Peer) {
    Unused(b.ep.rcv, b.ep.cfg.rcv_wnd) != 0 && b.ep.cfg.rcv_wnd <= WIDE
  }

  // Everything numbered has arrived, and the window of a is open.
  lemma {:induction false} OpenNext(s: Pair) returns (s1: Pair)
    requires Sane(s) && Admits(s.b) && s.b.rnxt == s.a.nxt
    requires s.a.ep.snd.queue != [] && |s.a.ep.snd.buf| < Window(s.a)
    ensures Leads(s, s1) && Sane(s1) && Synced(s1) && s1.b.rnxt > s.b.rnxt && Returned(s1.b) == Returned(s.b)
  {
    var s0 := Open(s);
    s1 := SendNext(s0);
    LeadsOn(s, s0, s1);
  }

  // After a has found out where b is.
  lemma {:induction false} SyncedNext(s: Pair) returns (s1: Pair)
    requires Sane(s) && s.a.ep.cfg.snd_wnd > 0 && Synced(s) && Admits(s.b) && s.b.rnxt < |LogOf(s.a)|
    ensures Leads(s, s1) && Sane(s1) && Synced(s1) && s1.b.rnxt > s.b.rnxt && Returned(s1.b) == Returned(s.b)
  {
    Numbers(s);
    if s.b.rnxt < s.a.nxt { s1 := SendNext(s); } else { s1 := OpenNext(s); }
  }

  // b gets on by a piece at least.
  lemma {:induction false} MovesOn(s: Pair) returns (s1: Pair)
    requires Sane(s) && s.a.ep.cfg.snd_wnd > 0 && !Blocked(s.a) && Admits(s.b) && s.b.rnxt < |LogOf(s.a)|
    ensures Leads(s, s1) && Sane(s1) && !Blocked(s1.a) && s1.b.rnxt > s.b.rnxt && Returned(s1.b) == Returned(s.b)
  {
    Numbers(s);
    if s.b.rnxt < s.a.nxt {
      s1 := SendNext(s);
    } else if |s.a.ep.snd.buf| < Window(s.a) {
      s1 := OpenNext(s);
    } else {
      var s0 := Sync(s);
      LeadsKept(s, s0);
      if s0.b.rnxt > s.b.rnxt {
        s1 := s0;
      } else {
        s1 := SyncedNext(s0);
        LeadsOn(s, s0, s1);
      }
    }
    SyncedMoves(s1);
  }

  // ---- Recv ------------------------------------------------------------------------------------------

  // In message mode no message has more fragments than the receive window holds.
  predicate FitsWindow(a: Peer, wnd: u32) {
    a.ep.cfg.Valid() && !a.ep.cfg.stream ==> forall m <- a.accepted :: |Fragments(m, a.ep.cfg.Mss())| <= wnd
  }

  // When Recv has nothing to return, the queue has room, and there is something to wait for.
  lemma {:induction false} NotReady(s: Pair)
    requires Sane(s) && FitsWindow(s.a, s.b.ep.cfg.rcv_wnd) && !Ready(s.b.ep.rcv.queue) && Returned(s.b) < |LogOf(s.a)|
    ensures |s.b.ep.rcv.queue| < s.b.ep.cfg.rcv_wnd && s.b.rnxt < |LogOf(s.a)|
  {
    assert Asked(0);
    NotReadyYet(s.a, s.b);
  }

  lemma {:induction false} NotReadyYet(p: Peer, q: Peer)
    requires p.ep.cfg.Valid() && q.ep.cfg.Valid() && RecvSide(q, p) && Handed(p, q.delivered, Returned(q))
    requires FitsWindow(p, q.ep.cfg.rcv_wnd) && !Ready(q.ep.rcv.queue) && Returned(q) < |LogOf(p)|
    ensures |q.ep.rcv.queue| < q.ep.cfg.rcv_wnd && q.rnxt < |LogOf(p)|
  {
    var queue, lo := q.ep.rcv.queue, Returned(q);
    if queue != [] {
      assert Contents(queue)[0] == p.sent[lo] == LogOf(p)[lo];
      if !p.ep.cfg.stream {
        QueueAtBoundary(p, q);
        var d, mss := |q.delivered|, p.ep.cfg.Mss();
        QueueFront(queue, p.accepted[d], mss);
        assert p.accepted[d] in p.accepted;
        LogSlice(p.accepted, mss, d + 1);
      }
    }
  }

  lemma {:induction false} RecvB(s: Pair) returns (s1: Pair)
    requires Sane(s) && Ready(s.b.ep.rcv.queue)
    ensures Leads(s, s1) && Sane(s1) && s1.a == s.a && Returned(s1.b) > Returned(s.b)
    ensures s1.b.ep.snd == s.b.ep.snd && s1.b.ep.cfg == s.b.ep.cfg
    ensures s1.b.ep.rcv == AfterRecv(s.b.ep.rcv, s.b.ep.cfg.rcv_wnd)
    ensures Full(s.b) && !Full(s1.b) ==> Owes(s1.b)
  {
    var cap := PeekSize(s.b.ep.rcv.queue);
    SaneNext(s, AtB(Recv(cap)));
    s1 := Next(s, AtB(Recv(cap)));
    RecvMoreB(s, cap);
  }

  lemma {:induction false} RecvMoreB(s: Pair, cap: nat)
    requires Sane(s) && Ready(s.b.ep.rcv.queue) && PeekSize(s.b.ep.rcv.queue) <= cap
    ensures Returned(RecvStep(s.b, cap)) > Returned(s.b)
  {
    assert Asked(0);
    RecvRecvSide(s.a, s.b, cap);
  }

  // ---- the theorem --------------------------------------------------------------------------------------

  // Windows that are usable at all, and announced without truncation.
  predicate Roomy(s: Pair) {
    s.a.ep.cfg.snd_wnd > 0 && s.b.ep.cfg.rcv_wnd <= MAX_WINDOW
  }

  // Everything a was given comes out at b.
  lemma {:induction false} AllReturned(s: Pair) returns (s1: Pair)
    requires Sane(s) && Roomy(s) && FitsWindow(s.a, s.b.ep.cfg.rcv_wnd) && !Blocked(s.a)
    ensures Leads(s, s1) && Sane(s1) && Returned(s1.b) == |LogOf(s1.a)|
    decreases |LogOf(s.a)| - Returned(s.b), |LogOf(s.a)| - s.b.rnxt
  {
    ReturnedBelow(s);
    if Returned(s.b) == |LogOf(s.a)| {
      LeadsSelf(s);
      s1 := s;
    } else {
      var s0;
      if Ready(s.b.ep.rcv.queue) {
        s0 := RecvB(s);
      } else {
        NotReady(s);
        s0 := MovesOn(s);
      }
      LeadsKept(s, s0);
      s1 := AllReturned(s0);
      LeadsOn(s, s0, s1);
    }
  }

  lemma {:induction false} ReturnedBelow(s: Pair)
    requires Sane(s)
    ensures 0 <= Returned(s.b) <= s.b.rnxt <= |LogOf(s.a)|
  {
    assert Asked(0);
  }

  // ---- the same seen from the other side --------------------------------------------------------------------

  function Mirror(act: Action): Action {
    match act case AtA(step) => AtB(step) case AtB(step) => AtA(step)
  }

  function Mirrored(acts: seq<Action>): seq<Action> { seq(|acts|, i requires 0 <= i < |acts| => Mirror(acts[i])) }

  lemma {:induction false} MirrorRun(s: Pair, acts: seq<Action>)
    requires IsRun(s, acts)
    ensures IsRun(Swap(s), Mirrored(acts)) && After(Swap(s), Mirrored(acts)) == Swap(After(s, acts))
    decreases acts
  {
    if acts != [] {
      MirrorNext(s, acts[0]);
      MirrorRun(Next(s, acts[0]), acts[1..]);
      assert Mirrored(acts)[0] == Mirror(acts[0]) && Mirrored(acts)[1..] == Mirrored(acts[1..]);
    }
  }

  lemma {:induction false} MirrorNext(s: Pair, act: Action)
    requires Timely(s, act)
    ensures Timely(Swap(s), Mirror(act)) && Next(Swap(s), Mirror(act)) == Swap(Next(s, act))
  {
    assert Swap(Swap(s)) == s;
  }

  lemma {:induction false} LeadsSwap(s: Pair, s1: Pair)
    requires Leads(s, s1)
    ensures Leads(Swap(s), Swap(s1))
  {
    assert Asked(0);
    var acts :| QuietRun(s, acts, s1);
    MirrorRun(s, acts);
    assert forall i :: 0 <= i < |acts| ==> StepOf(Mirror(acts[i])) == StepOf(acts[i]);
    assert QuietRun(Swap(s), Mirrored(acts), Swap(s1));
  }

  lemma {:induction false} SaneSwap(s: Pair)
    requires Sane(s)
    ensures Sane(Swap(s))
  {
  }

  // ---- when a is blocked but b speaks -----------------------------------------------------------------------

  // The receive queue has no room.
  predicate Full(p: Peer) {
    |p.ep.rcv.queue| >= p.ep.cfg.rcv_wnd
  }

  // p has nothing to say, and Recv will not change that.
  predicate Silent(p: Peer) {
    Spent(p) && !Owes(p) && !Full(p)
  }

  // Whatever b says, a learns where b is.
  lemma {:induction false} Tells(s: Pair, full: bool, clock: Clock) returns (s1: Pair)
    requires Sane(s) && KcpSpec.Flush(s.b.ep, full, clock.probe, clock.now).emits != []
    ensures Leads(s, s1) && Sane(s1) && Synced(s1) && s1.b.ep.rcv == s.b.ep.rcv.(acks := [])
    ensures s1.b.rnxt == s.b.rnxt && s1.b.ep.cfg == s.b.ep.cfg
  {
    var pkt := TellPacket(s, full, clock);
    FlushSame(s.b, full, clock);
    var s0 := FlushB(s, full, clock);
    s1 := DeliverA(s0, pkt, clock);
    LeadsOn(s, s0, s1);
  }

  lemma {:induction false} TellPacket(s: Pair, full: bool, clock: Clock) returns (pkt: Packet)
    requires Sane(s) && KcpSpec.Flush(s.b.ep, full, clock.probe, clock.now).emits != []
    ensures Hearable(s.b, s.a, full, clock, pkt)
    ensures var a1 := DeliverStep(s.a, pkt, true, false, clock).0;
            a1.una == s.b.rnxt && a1.ep.ctl.rmt_wnd == Unused(s.b.ep.rcv, s.b.ep.cfg.rcv_wnd)
  {
    assert Asked(0);
    LinkedBack(s.a, s.b);
    pkt := Understood(s.b, s.a, full, clock);
    DeliverSplits(s.a, pkt, true, false, clock);
    RespondSame(Took(s.a, pkt, clock), AnyUrgent(s.a.ep, Decode(s.a.ep.cfg.conv, pkt.bytes).0, true), clock);
  }

  lemma {:induction false} Understood(p: Peer, q: Peer, full: bool, clock: Clock) returns (pkt: Packet)
    requires Linked(p, q) && KcpSpec.Flush(p.ep, full, clock.probe, clock.now).emits != []
    ensures Sent(p, q, full, clock, pkt)
    ensures Took(q, pkt, clock).una == p.rnxt
    ensures Took(q, pkt, clock).ep.ctl.rmt_wnd == Unused(p.ep.rcv, p.ep.cfg.rcv_wnd)
  {
    var w := KcpSpec.Flush(p.ep, full, clock.probe, clock.now).emits[0];
    pkt := SendWire(p, q, full, clock, w);
    TookSame(q, pkt, clock);
    LearnsWindow(q, FlushStep(p, full, clock).0, Decode(q.ep.cfg.conv, pkt.bytes).0, pkt.stamps, p.rnxt,
                 Unused(p.ep.rcv, p.ep.cfg.rcv_wnd));
  }

  // b owes an answer.
  lemma {:induction false} TellsOwed(s: Pair) returns (s1: Pair)
    requires Sane(s) && Owes(s.b)
    ensures Leads(s, s1) && Sane(s1) && Synced(s1) && s1.b.ep.rcv == s.b.ep.rcv.(acks := [])
    ensures s1.b.rnxt == s.b.rnxt && s1.b.ep.cfg == s.b.ep.cfg
  {
    FlushTells(s.b.ep, false, CALM);
    s1 := Tells(s, false, CALM);
  }

  // b takes the window of a for closed, and asks.
  lemma {:induction false} TellsAsking(s: Pair) returns (s1: Pair)
    requires Sane(s) && s.b.ep.ctl.rmt_wnd == 0
    ensures Leads(s, s1) && Sane(s1) && Synced(s1)
  {
    if s.b.ep.ctl.probe_wait != 0 {
      var clock := Clock(0, s.b.ep.ctl.ts_probe, Always(0));
      FlushTells(s.b.ep, false, clock);
      s1 := Tells(s, false, clock);
    } else {
      QuietFlush(s.b);
      var s0 := FlushB(s, false, CALM);
      var clock := Clock(0, s0.b.ep.ctl.ts_probe, Always(0));
      FlushTells(s0.b.ep, false, clock);
      s1 := Tells(s0, false, clock);
      LeadsOn(s, s0, s1);
    }
  }

  // b has something in flight that is not acknowledged.
  lemma {:induction false} TellsAgain(s: Pair, k: nat) returns (s1: Pair)
    requires Sane(s) && k < |s.b.ep.snd.buf| && !s.b.ep.snd.buf[k].acked
    ensures Leads(s, s1) && Sane(s1) && Synced(s1)
  {
    assert EndpointInv(s.b.ep) by { assert Asked(0); }
    FlushResends(s.b.ep, k, 0);
    s1 := Tells(s, true, Clock(0, 0, Always(s.b.ep.snd.buf[k].resendts)));
  }

  // A piece numbered after a last heard of it is not acknowledged.
  lemma {:induction false} NewWaits(s: Pair, s1: Pair) returns (k: nat)
    requires Sane(s) && Sane(s1) && s1.a == s.a && s1.b.nxt > s.b.nxt
    ensures k < |s1.b.ep.snd.buf| && !s1.b.ep.snd.buf[k].acked
  {
    assert Asked(0);
    k := s.b.nxt - s1.b.una;
    NotArrived(s.b, s.a);
    assert s1.b.ep.snd.buf[k].acked ==> s1.b.una + k in ArrivedSet(s.a);
  }

  lemma {:induction false} NotArrived(p: Peer, q: Peer)
    requires Linked(p, q)
    ensures !ArrivedAt(q, p.nxt)
  {
  }

  // b has room in its window for something new.
  lemma {:induction false} TellsNew(s: Pair) returns (s1: Pair)
    requires Sane(s) && s.b.ep.snd.queue != [] && |s.b.ep.snd.buf| < Window(s.b)
    ensures Leads(s, s1) && Sane(s1) && Synced(s1)
  {
    SaneSwap(s);
    var t := Open(Swap(s));
    SaneSwap(t);
    LeadsSwap(Swap(s), t);
    assert Swap(Swap(s)) == s;
    var k := NewWaits(s, Swap(t));
    s1 := TellsAgain(Swap(t), k);
    LeadsOn(s, Swap(t), s1);
  }

  // What Recv leaves of a receiver whose first message is complete.
  function AfterRecv(r: Receiver, wnd: u32): Receiver {
    MoveReady(r.(queue := r.queue[MessageEnd(r.queue)..]), wnd)
  }

  lemma {:induction false} MoveReadySize(r: Receiver, wnd: u32)
    ensures |MoveReady(r, wnd).queue| + |MoveReady(r, wnd).buf| == |r.queue| + |r.buf|
    decreases |r.buf|
  {
    if r.nxt in r.buf && |r.queue| < wnd {
      MoveReadySize(Receiver(r.buf - {r.nxt}, r.queue + [r.buf[r.nxt]], Add32(r.nxt, 1), r.acks), wnd);
    }
  }

  // Recv, called often enough, makes room in the receive queue.
  predicate Frees(r: Receiver, wnd: u32)
    decreases |r.queue| + |r.buf|
  {
    Ready(r.queue) &&
    var r1 := AfterRecv(r, wnd);
    MoveReadySize(r.(queue := r.queue[MessageEnd(r.queue)..]), wnd);
    |r1.queue| < wnd || Frees(r1, wnd)
  }

  // It then means to tell that its window is open.
  lemma {:induction false} Drains(s: Pair) returns (s1: Pair)
    requires Sane(s) && Full(s.b) && Frees(s.b.ep.rcv, s.b.ep.cfg.rcv_wnd)
    ensures Leads(s, s1) && Sane(s1) && s1.a == s.a && !Full(s1.b) && Owes(s1.b)
    ensures s1.b.ep.snd == s.b.ep.snd && s1.b.ep.cfg == s.b.ep.cfg
    decreases |s.b.ep.rcv.queue| + |s.b.ep.rcv.buf|
  {
    MoveReadySize(s.b.ep.rcv.(queue := s.b.ep.rcv.queue[MessageEnd(s.b.ep.rcv.queue)..]), s.b.ep.cfg.rcv_wnd);
    s1 := RecvB(s);
    if Full(s1.b) {
      var s0 := s1;
      s1 := Drains(s0);
      LeadsOn(s, s0, s1);
    }
  }

  // If every message of a fits the window of b, it always does.
  lemma {:induction false} FitsFrees(s: Pair)
    requires Sane(s) && FitsWindow(s.a, s.b.ep.cfg.rcv_wnd) && Full(s.b)
    ensures Frees(s.b.ep.rcv, s.b.ep.cfg.rcv_wnd)
    decreases |s.b.ep.rcv.queue| + |s.b.ep.rcv.buf|
  {
    ReturnedBelow(s);
    Numbers(s);
    if !Ready(s.b.ep.rcv.queue) { NotReady(s); }
    MoveReadySize(s.b.ep.rcv.(queue := s.b.ep.rcv.queue[MessageEnd(s.b.ep.rcv.queue)..]), s.b.ep.cfg.rcv_wnd);
    var s1 := RecvB(s);
    if Full(s1.b) { FitsFrees(s1); }
  }

  // b is not silent: a learns where it is, and goes on.
  lemma {:induction false} Unblock(s: Pair) returns (s1: Pair)
    requires Sane(s) && FitsWindow(s.a, s.b.ep.cfg.rcv_wnd) && !Silent(s.b)
    ensures Leads(s, s1) && Sane(s1) && Synced(s1) && !Blocked(s1.a)
  {
    if Full(s.b) {
      FitsFrees(s);
      var s0 := Drains(s);
      s1 := TellsOwed(s0);
      LeadsOn(s, s0, s1);
    } else if Owes(s.b) {
      s1 := TellsOwed(s);
    } else if s.b.ep.ctl.rmt_wnd == 0 {
      s1 := TellsAsking(s);
    } else if k :| 0 <= k < |s.b.ep.snd.buf| && !s.b.ep.snd.buf[k].acked {
      s1 := TellsAgain(s, k);
    } else {
      s1 := TellsNew(s);
    }
    SyncedMoves(s1);
  }

  // ---- when a can wake b ------------------------------------------------------------------------------------

  // b is silent, but a owes it an answer, or will once Recv is called there: if that says that
  // the window of a is closed, b will ask; if b waits to send, it can go on.
  predicate Wakes(s: Pair) {
    if Full(s.a) then
      Owes(s.a) || (s.b.ep.snd.queue != [] && Frees(s.a.ep.rcv, s.a.ep.cfg.rcv_wnd))
    else
      Owes(s.a) && s.b.ep.snd.queue != []
  }

  // Something waits at a, and nothing that either side will say of itself can change that.
  predicate Deadlocked(s: Pair) {
    Blocked(s.a) && Silent(s.b) && !Wakes(s)
  }

  // b knows where a is and still has something to send.
  lemma {:induction false} Awake(s: Pair)
    requires Sane(s) && Roomy(s) && Synced(s) && !Full(s.b)
    requires s.b.rnxt < |LogOf(s.a)|
    ensures !Silent(s.a)
  {
    Numbers(s);
    SyncedMoves(s);
  }

  lemma {:induction false} WakesOwing(s: Pair) returns (s1: Pair)
    requires Sane(s) && Roomy(Swap(s)) && Owes(s.a) && (Full(s.a) || s.b.ep.snd.queue != [])
    ensures Leads(s, s1) && Sane(s1) && !Silent(s1.b)
  {
    SaneSwap(s);
    var t := TellsOwed(Swap(s));
    LeadsKept(Swap(s), t);
    LeadsSwap(Swap(s), t);
    SaneSwap(t);
    assert Swap(Swap(s)) == s;
    s1 := Swap(t);
    if !Full(s.a) {
      Numbers(Swap(s));
      Awake(t);
    }
  }

  lemma {:induction false} WakesUp(s: Pair) returns (s1: Pair)
    requires Sane(s) && Roomy(Swap(s)) && Wakes(s)
    ensures Leads(s, s1) && Sane(s1) && !Silent(s1.b)
  {
    if Owes(s.a) {
      s1 := WakesOwing(s);
    } else {
      SaneSwap(s);
      var t := Drains(Swap(s));
      SaneSwap(t);
      LeadsSwap(Swap(s), t);
      assert Swap(Swap(s)) == s;
      s1 := WakesOwing(Swap(t));
      LeadsOn(s, Swap(t), s1);
    }
  }

  lemma {:induction false} LogStrict(messages: seq<Payload>, mss: nat, d: nat)
    requires mss > 0 && d <= |messages| && |Log(messages[..d], mss)| == |Log(messages, mss)|
    ensures d == |messages|
  {
    LogSlice(messages, mss, d);
  }

  lemma {:induction false} AllOut(s: Pair)
    requires Sane(s) && Returned(s.b) == |LogOf(s.a)|
    ensures !s.a.ep.cfg.stream ==> s.b.delivered == s.a.accepted
    ensures Concat(s.b.delivered) == s.a.taken
  {
    assert Asked(0);
    assert s.a.sent[..Returned(s.b)] == s.a.sent == LogOf(s.a);
    if !s.a.ep.cfg.stream { LogStrict(s.a.accepted, s.a.ep.cfg.Mss(), |s.b.delivered|); }
  }

  // a is not blocked, or gets over it.
  lemma {:induction false} Unblocked(s: Pair) returns (s1: Pair)
    requires Sane(s) && Roomy(Swap(s)) && FitsWindow(s.a, s.b.ep.cfg.rcv_wnd) && !Deadlocked(s)
    ensures Leads(s, s1) && Sane(s1) && !Blocked(s1.a)
  {
    if !Blocked(s.a) {
      LeadsSelf(s);
      s1 := s;
    } else if !Silent(s.b) {
      s1 := Unblock(s);
    } else {
      var s0 := WakesUp(s);
      LeadsKept(s, s0);
      s1 := Unblock(s0);
      LeadsOn(s, s0, s1);
    }
  }

  lemma {:induction false} Comes(s: Pair) returns (s1: Pair)
    requires Sane(s) && Roomy(s) && Roomy(Swap(s)) && FitsWindow(s.a, s.b.ep.cfg.rcv_wnd) && !Deadlocked(s)
    ensures Leads(s, s1) && (!s.a.ep.cfg.stream ==> s1.b.delivered == s.a.accepted)
    ensures Concat(s1.b.delivered) == s.a.taken
  {
    var s0 := Unblocked(s);
    LeadsKept(s, s0);
    s1 := AllReturned(s0);
    LeadsOn(s, s0, s1);
    LeadsKept(s, s1);
    AllOut(s1);
  }

  // These flushes, deliveries and Recvs return at b everything that a was given.
  ghost predicate Brings(s: Pair, more: seq<Action>) {
    && Quiet(more) && IsRun(s, more)
    && (!s.a.ep.cfg.stream ==> After(s, more).b.delivered == s.a.accepted)
    && Concat(After(s, more).b.delivered) == s.a.taken
  }

  // The same pair, everything on the network lost.
  function Cut(s: Pair): Pair { s.(toA := {}, toB := {}) }

  lemma {:induction false} SaneCut(s: Pair)
    requires Sane(s)
    ensures Sane(Cut(s))
  {
  }

  lemma {:induction false} ReachedSane(ca: Config, cb: Config, acts: seq<Action>)
    requires Compatible(ca, cb) && IsRun(Init(ca, cb), acts)
    ensures var s := After(Init(ca, cb), acts); Sane(s) && s.a.ep.cfg == ca && s.b.ep.cfg == cb
  {
    InitInv(ca, cb);
    RunKeepsInv(Init(ca, cb), acts);
  }

  // No deadlock: from every reachable state that is not deadlocked, and even if everything on
  // the network is lost, some continuation of flushes, deliveries and Recvs returns everything
  // that a accepted, closed windows included, if every message fits the receive window.
  lemma {:induction false} NoDeadlock(ca: Config, cb: Config, acts: seq<Action>)
    requires Compatible(ca, cb) && IsRun(Init(ca, cb), acts)
    requires ca.snd_wnd > 0 && cb.snd_wnd > 0 && ca.rcv_wnd <= MAX_WINDOW && cb.rcv_wnd <= MAX_WINDOW
    requires var s := After(Init(ca, cb), acts); FitsWindow(s.a, cb.rcv_wnd) && !Deadlocked(s)
    ensures exists more :: Brings(Cut(After(Init(ca, cb), acts)), more)
  {
    ReachedSane(ca, cb, acts);
    var s := Cut(After(Init(ca, cb), acts));
    SaneCut(After(Init(ca, cb), acts));
    var s1 := Comes(s);
    assert Asked(0);
    var more :| QuietRun(s, more, s1);
    assert Brings(s, more);
  }

  // ---- messages that do not fit -----------------------------------------------------------------------------

  // The first n of these messages have no more fragments than that.
  ghost predicate FitUpTo(messages: seq<Payload>, mss: nat, n: nat, wnd: u32)
    requires mss > 0
  {
    forall i :: 0 <= i < n && i < |messages| ==> |Fragments(messages[i], mss)| <= wnd
  }

  // Messages that b has returned had no more fragments than its window holds.
  ghost predicate ReturnedFit(s: Pair) {
    s.a.ep.cfg.Valid() && !s.a.ep.cfg.stream ==>
      FitUpTo(s.a.accepted, s.a.ep.cfg.Mss(), |s.b.delivered|, s.b.ep.cfg.rcv_wnd)
  }

  lemma {:induction false} RecvFits(p: Peer, q: Peer)
    requires p.ep.cfg.Valid() && q.ep.cfg.Valid() && !p.ep.cfg.stream && |q.ep.rcv.queue| <= q.ep.cfg.rcv_wnd
    requires RecvSide(q, p) && HandedWhole(p, q.delivered, Returned(q)) && Ready(q.ep.rcv.queue)
    ensures |q.delivered| < |p.accepted|
    ensures |Fragments(p.accepted[|q.delivered|], p.ep.cfg.Mss())| <= q.ep.cfg.rcv_wnd
  {
    QueueAtBoundary(p, q);
    QueueFront(q.ep.rcv.queue, p.accepted[|q.delivered|], p.ep.cfg.Mss());
  }

  // What a step at a does to the messages of either side.
  lemma {:induction false} StepMessages(s: Pair, step: Step)
    requires Sane(s) && Enabled(s, step)
    ensures var a := StepAtA(s, step).a;
            && a.ep.cfg == s.a.ep.cfg && s.a.accepted <= a.accepted
            && (a.delivered == s.a.delivered || (Ready(s.a.ep.rcv.queue) && |a.delivered| == |s.a.delivered| + 1))
  {
    assert Asked(0);
    if step.Send? {
      SendMessages(s.a, step.msg);
    } else if step.Recv? {
      RecvMessages(s.a, s.b, step.cap);
    } else {
      CalmStep(s, step);
    }
  }

  lemma {:induction false} SendMessages(p: Peer, msg: Payload)
    requires p.ep.cfg.Valid()
    ensures var p1 := SendStep(p, msg);
            p1.ep.cfg == p.ep.cfg && p.accepted <= p1.accepted && p1.delivered == p.delivered
  {
  }

  lemma {:induction false} RecvMessages(p: Peer, q: Peer, cap: nat)
    requires Linked(p, q)
    ensures var p1 := RecvStep(p, cap);
            && p1.ep.cfg == p.ep.cfg && p1.accepted == p.accepted
            && (p1.delivered == p.delivered || (Ready(p.ep.rcv.queue) && |p1.delivered| == |p.delivered| + 1))
  {
    RecvSame(p, cap);
    RecvRecvSide(q, p, cap);
  }

  lemma {:induction false} ReturnedAccepted(s: Pair)
    requires Sane(s) && !s.a.ep.cfg.stream
    ensures |s.b.delivered| <= |s.a.accepted|
  {
    assert Asked(0);
  }

  lemma {:induction false} StepFitsA(s: Pair, step: Step)
    requires Sane(s) && Enabled(s, step) && ReturnedFit(s)
    ensures ReturnedFit(StepAtA(s, step))
  {
    StepMessages(s, step);
    if !s.a.ep.cfg.stream { ReturnedAccepted(s); }
  }

  lemma {:induction false} NextFits(s: Pair)
    requires Sane(s) && !s.a.ep.cfg.stream && Ready(s.b.ep.rcv.queue)
    ensures |s.b.delivered| < |s.a.accepted|
    ensures |Fragments(s.a.accepted[|s.b.delivered|], s.a.ep.cfg.Mss())| <= s.b.ep.cfg.rcv_wnd
  {
    assert Asked(0);
    RecvFits(s.a, s.b);
  }

  lemma {:induction false} StepFitsB(s: Pair, step: Step)
    requires Sane(s) && Enabled(Swap(s), step) && ReturnedFit(s)
    ensures ReturnedFit(Swap(StepAtA(Swap(s), step)))
  {
    SaneSwap(s);
    StepMessages(Swap(s), step);
    if Ready(s.b.ep.rcv.queue) && !s.a.ep.cfg.stream { NextFits(s); }
    OneMoreFits(s, Swap(StepAtA(Swap(s), step)));
  }

  lemma {:induction false} OneMoreFits(s: Pair, s1: Pair)
    requires ReturnedFit(s) && s1.a == s.a && s1.b.ep.cfg == s.b.ep.cfg
    requires s1.b.delivered == s.b.delivered || (|s1.b.delivered| == |s.b.delivered| + 1 &&
               (s.a.ep.cfg.Valid() && !s.a.ep.cfg.stream && |s.b.delivered| < |s.a.accepted| ==>
                  |Fragments(s.a.accepted[|s.b.delivered|], s.a.ep.cfg.Mss())| <= s.b.ep.cfg.rcv_wnd))
    ensures ReturnedFit(s1)
  {
  }

  lemma {:induction false} RunFits(s: Pair, acts: seq<Action>)
    requires Sane(s) && IsRun(s, acts) && ReturnedFit(s)
    ensures ReturnedFit(After(s, acts))
    decreases acts
  {
    if acts != [] {
      match acts[0] {
        case AtA(step) => StepFitsA(s, step);
        case AtB(step) => StepFitsB(s, step);
      }
      SaneOn(s, acts[0]);
      RunFits(Next(s, acts[0]), acts[1..]);
    }
  }

  lemma {:induction false} SaneOn(s: Pair, act: Action)
    requires Sane(s) && Timely(s, act)
    ensures Sane(Next(s, act))
  {
    assert Asked(0);
    NextKeepsInv(s, act);
  }

  // A message with more fragments than the receive window holds is never returned.
  lemma {:induction false} TooManyFragments(ca: Config, cb: Config, acts: seq<Action>, i: nat)
    requires Compatible(ca, cb) && IsRun(Init(ca, cb), acts) && !ca.stream
    requires i < |After(Init(ca, cb), acts).a.accepted|
    requires |Fragments(After(Init(ca, cb), acts).a.accepted[i], ca.Mss())| > cb.rcv_wnd
    ensures |After(Init(ca, cb), acts).b.delivered| <= i
  {
    InitInv(ca, cb);
    RunKeepsInv(Init(ca, cb), acts);
    RunFits(Init(ca, cb), acts);
  }
}
