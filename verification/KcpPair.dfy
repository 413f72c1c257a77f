/** Two endpoints over a network that may drop, duplicate and reorder datagrams but not
    alter them, for runs of any length.

    The peers' counters and the datagrams carry, beside the 32-bit words of the
    implementation, the unbounded numbers those words stand for.  They are
    bookkeeping only: no operation reads them.
 */
module KcpPair {
  import opened Words
  import opened KcpWire
  import opened KcpSpec
  import opened KcpInvariant
  import opened KcpFlow
  import opened KcpBytes

  // An endpoint, the numbers behind its words, the number it last acknowledged cumulatively,
  // the pieces it has numbered so far, what its application handed to Send (the messages
  // accepted, and the bytes taken) and what Recv returned to it.
  datatype Peer = Peer(ep: Endpoint, una: nat, nxt: nat, rnxt: nat, ackNums: seq<nat>, told: nat, sent: seq<Piece>,
                       accepted: seq<Payload>, taken: Bytes, delivered: seq<Bytes>)

  datatype Stamp = Stamp(sn: nat, una: nat)

  datatype Packet = Packet(bytes: Bytes, stamps: seq<Stamp>)

  // toB holds every datagram a ever sent: the network may deliver any of them, in any
  // order, any number of times, or never.
  datatype Pair = Pair(a: Peer, b: Peer, toB: set<Packet>, toA: set<Packet>)

  datatype Step =
    | Send(msg: Payload)
    | Recv(cap: nat)
    | Flush(full: bool, clock: Clock)
    | Deliver(pkt: Packet, regular: bool, ackNoDelay: bool, clock: Clock)

  datatype Action = AtA(step: Step) | AtB(step: Step)

  function NewPeer(cfg: Config): Peer {
    Peer(NewEndpoint(cfg), 0, 0, 0, [], 0, [], [], [], [])
  }

  // Numbered or waiting to be.
  function LogOf(p: Peer): seq<Piece> {
    p.sent + Contents(p.ep.snd.queue)
  }

  predicate ArrivedAt(p: Peer, i: nat) {
    Arrived(p.ep.rcv, p.rnxt, p.ep.cfg.rcv_wnd, i)
  }

  ghost function ArrivedSet(p: Peer): iset<nat> {
    iset i: nat | ArrivedAt(p, i)
  }

  // ---- steps ------------------------------------------------------------------

  function SendStep(p: Peer, msg: Payload): Peer
    requires p.ep.cfg.Valid()
  {
    var (ep, code) := KcpSpec.Send(p.ep, msg);
    p.(ep := ep, accepted := if code == 0 then p.accepted + [msg] else p.accepted, taken := p.taken + Taken(p.ep, msg))
  }

  function RecvStep(p: Peer, cap: nat): Peer {
    var (ep, n, data) := KcpSpec.Recv(p.ep, cap);
    p.(ep := ep, rnxt := Advance(p.rnxt, ep.rcv.nxt), delivered := if n >= 0 then p.delivered + [data] else p.delivered)
  }

  function FindAck(nums: seq<nat>, word: u32): nat {
    if nums == [] then 0 else if Wrap(nums[0]) == word then nums[0] else FindAck(nums[1..], word)
  }

  // The numbers behind a segment that p emits.
  function StampOf(p: Peer, w: Wire): Stamp {
    Stamp(if w.cmd == CMD_ACK then FindAck(p.ackNums, w.sn) else Advance(p.una, w.sn), p.rnxt)
  }

  function PacketOf(p: Peer, d: Bytes): Packet {
    var ws := Decode(p.ep.cfg.conv, d).0;
    Packet(d, seq(|ws|, i requires 0 <= i < |ws| => StampOf(p, ws[i])))
  }

  // The datagrams of a flush by p that emits ws.
  function Packets(p: Peer, ws: seq<Wire>): set<Packet> {
    set d | d in Pack(ws, p.ep.cfg.mtu) :: PacketOf(p, d)
  }

  function FlushPeer(p: Peer, ep: Endpoint): Peer {
    var nxt := Advance(p.nxt, ep.snd.nxt);
    p.(ep := ep, nxt := nxt, ackNums := if ep.rcv.acks == [] then [] else p.ackNums,
       told := if ep.rcv.acks == [] then p.rnxt else p.told,
       sent := p.sent + Contents(p.ep.snd.queue[..Min(nxt - p.nxt, |p.ep.snd.queue|)]))
  }

  function FlushStep(p: Peer, full: bool, clock: Clock): (Peer, set<Packet>)
    requires p.ep.cfg.Valid()
  {
    var f := KcpSpec.Flush(p.ep, full, clock.probe, clock.now);
    (FlushPeer(p, f.ep), Packets(p, f.emits))
  }

  // One incoming segment.
  function PeerSegment(p: Peer, w: Wire, st: Stamp, regular: bool): Peer {
    var ep := InputSegment(p.ep, w, regular);
    p.(ep := ep, una := Advance(p.una, ep.snd.una), rnxt := Advance(p.rnxt, ep.rcv.nxt),
       ackNums := if w.cmd == CMD_PUSH && InWindow(p.ep.rcv, p.ep.cfg.rcv_wnd, w.sn) then p.ackNums + [st.sn]
                  else p.ackNums)
  }

  function PeerAll(p: Peer, ws: seq<Wire>, stamps: seq<Stamp>, regular: bool): (r: Peer)
    requires |ws| == |stamps|
    ensures r.ep == InputAll(p.ep, ws, regular)
    decreases ws
  {
    if ws == [] then p else PeerAll(PeerSegment(p, ws[0], stamps[0], regular), ws[1..], stamps[1..], regular)
  }

  function DeliverStep(p: Peer, pkt: Packet, regular: bool, ackNoDelay: bool, clock: Clock): (Peer, set<Packet>)
    requires p.ep.cfg.Valid() && |pkt.stamps| == |Decode(p.ep.cfg.conv, pkt.bytes).0|
  {
    var p1 := PeerAll(p, Decode(p.ep.cfg.conv, pkt.bytes).0, pkt.stamps, regular);
    var (ep, code, emits) := Input(p.ep, pkt.bytes, regular, ackNoDelay, clock);
    (FlushPeer(p1, ep), Packets(p1, emits))
  }

  // Nothing in the datagram from q to p is further behind than half the word space.
  predicate Fresh(p: Peer, q: Peer, pkt: Packet) {
    var ws := Decode(p.ep.cfg.conv, pkt.bytes).0;
    |ws| == |pkt.stamps| && forall i :: 0 <= i < |ws| ==> FreshSegment(p, q, ws[i], pkt.stamps[i])
  }

  predicate FreshSegment(p: Peer, q: Peer, w: Wire, st: Stamp) {
    && p.nxt - st.una <= HALF
    && (w.cmd == CMD_PUSH ==> q.nxt - st.sn <= HALF)
    && (w.cmd == CMD_ACK ==> p.nxt - st.sn <= HALF + MAX_WINDOW)
  }

  // The step can happen: what is delivered was sent.
  predicate Available(s: Pair, step: Step) {
    && s.a.ep.cfg.Valid()
    && (step.Deliver? ==>
          step.pkt in s.toA && |step.pkt.stamps| == |Decode(s.a.ep.cfg.conv, step.pkt.bytes).0|)
  }

  predicate Enabled(s: Pair, step: Step) {
    Available(s, step) && (step.Deliver? ==> Fresh(s.a, s.b, step.pkt))
  }

  function StepAtA(s: Pair, step: Step): Pair
    requires Available(s, step)
  {
    match step
    case Send(msg) => s.(a := SendStep(s.a, msg))
    case Recv(cap) => s.(a := RecvStep(s.a, cap))
    case Flush(full, clock) =>
      var (a, out) := FlushStep(s.a, full, clock);
      s.(a := a, toB := s.toB + out)
    case Deliver(pkt, regular, ackNoDelay, clock) =>
      var (a, out) := DeliverStep(s.a, pkt, regular, ackNoDelay, clock);
      s.(a := a, toB := s.toB + out)
  }

  function Swap(s: Pair): Pair { Pair(s.b, s.a, s.toA, s.toB) }

  predicate Possible(s: Pair, act: Action) {
    match act
    case AtA(step) => Available(s, step)
    case AtB(step) => Available(Swap(s), step)
  }

  // Possible, and the network does not bring back what is half the word space old.
  predicate Timely(s: Pair, act: Action) {
    match act
    case AtA(step) => Enabled(s, step)
    case AtB(step) => Enabled(Swap(s), step)
  }

  function Next(s: Pair, act: Action): Pair
    requires Possible(s, act)
  {
    match act
    case AtA(step) => StepAtA(s, step)
    case AtB(step) => Swap(StepAtA(Swap(s), step))
  }

  function Init(ca: Config, cb: Config): Pair { Pair(NewPeer(ca), NewPeer(cb), {}, {}) }

  // One conversation; either side may be in message or in stream mode.
  predicate Compatible(ca: Config, cb: Config) {
    ca.Valid() && cb.Valid() && ca.conv == cb.conv
  }

  predicate IsRun(s: Pair, acts: seq<Action>)
    decreases acts
  {
    acts == [] || (Timely(s, acts[0]) && IsRun(Next(s, acts[0]), acts[1..]))
  }

  function After(s: Pair, acts: seq<Action>): Pair
    requires IsRun(s, acts)
    decreases acts
  {
    if acts == [] then s else After(Next(s, acts[0]), acts[1..])
  }

  // ---- invariant --------------------------------------------------------------

  // p as a sender towards q: whatever p released, q has.
  ghost predicate SendSide(p: Peer, q: Peer) {
    && SenderFlow(p.ep.snd, p.una, p.nxt, LogOf(p)) && |p.sent| == p.nxt
    && p.una <= q.told
    && Released(p.ep.snd, p.una, ArrivedSet(q))
  }

  // q as a receiver from p: whatever q holds, p has numbered.
  ghost predicate RecvSide(q: Peer, p: Peer) {
    && ReceiverFlow(q.ep.rcv, q.rnxt, q.ep.cfg.rcv_wnd, p.sent, p.nxt)
    && q.told <= q.rnxt && |q.ackNums| == |q.ep.rcv.acks|
    && (forall j :: 0 <= j < |q.ackNums| ==>
          && q.ep.rcv.acks[j].sn == Wrap(q.ackNums[j]) && ArrivedAt(q, q.ackNums[j])
          && q.told <= q.ackNums[j] + HALF)
  }

  // The bytes of pieces, and of what Recv returned.
  function Flat(log: seq<Piece>): Bytes {
    if log == [] then [] else Flat(log[..|log| - 1]) + log[|log| - 1].data
  }

  function Concat(parts: seq<Bytes>): Bytes {
    if parts == [] then [] else Concat(parts[..|parts| - 1]) + parts[|parts| - 1]
  }

  // How many pieces have left q through Recv.
  function Returned(q: Peer): int {
    q.rnxt - |q.ep.rcv.queue|
  }

  // In stream mode no piece is part of a message, and none is empty.
  ghost predicate Streamed(log: seq<Piece>) {
    forall i :: 0 <= i < |log| ==> log[i].frg == 0 && log[i].data != []
  }

  // What p was given is in its pieces, and the first of those, `at` of them, were returned as
  // these messages at the other side.
  ghost predicate Handed(p: Peer, delivered: seq<Bytes>, at: int)
    requires p.ep.cfg.Valid()
  {
    && 0 <= at <= |p.sent| && Flat(LogOf(p)) == p.taken && Concat(delivered) == Flat(p.sent[..at])
    && (p.ep.cfg.stream ==> Streamed(LogOf(p)))
    && (!p.ep.cfg.stream ==> HandedWhole(p, delivered, at))
  }

  // In message mode the pieces are those of the messages accepted.
  ghost predicate HandedWhole(p: Peer, delivered: seq<Bytes>, at: int)
    requires p.ep.cfg.Valid()
  {
    && LogOf(p) == Log(p.accepted, p.ep.cfg.Mss())
    && (forall m <- p.accepted :: Acceptable(m, p.ep.cfg.Mss()))
    && delivered <= p.accepted && |Log(p.accepted[..|delivered|], p.ep.cfg.Mss())| == at
  }

  ghost predicate SegmentGenuine(p: Peer, w: Wire, st: Stamp) {
    && w.una == Wrap(st.una) && st.una <= p.told
    && (w.cmd == CMD_PUSH ==>
          w.sn == Wrap(st.sn) && st.sn < p.nxt && st.sn < |p.sent| && Piece(w.frg, w.data) == p.sent[st.sn])
    && (w.cmd == CMD_ACK ==> w.sn == Wrap(st.sn) && ArrivedAt(p, st.sn))
  }

  ghost predicate Genuine(p: Peer, pkt: Packet) {
    var (ws, code) := Decode(p.ep.cfg.conv, pkt.bytes);
    code == 0 && |ws| == |pkt.stamps| && forall i :: 0 <= i < |ws| ==> SegmentGenuine(p, ws[i], pkt.stamps[i])
  }

  // Everything the proof of a step at p needs to know about p and q.
  ghost predicate Linked(p: Peer, q: Peer) {
    && EndpointInv(p.ep) && EndpointInv(q.ep) && Compatible(p.ep.cfg, q.ep.cfg)
    && SendSide(p, q) && RecvSide(q, p)
    && SendSide(q, p) && RecvSide(p, q)
  }

  ghost predicate PairInv(s: Pair) {
    && Linked(s.a, s.b)
    && Handed(s.a, s.b.delivered, Returned(s.b)) && Handed(s.b, s.a.delivered, Returned(s.a))
    && (forall pkt <- s.toB :: Genuine(s.a, pkt))
    && (forall pkt <- s.toA :: Genuine(s.b, pkt))
  }

  // What only ever grows.
  ghost predicate Grows(p: Peer, p1: Peer) {
    && p.ep.cfg.Valid() && p1.ep.cfg == p.ep.cfg
    && p.rnxt <= p1.rnxt && p.nxt <= p1.nxt && p.told <= p1.told
    && p.sent <= p1.sent
    && (forall i :: ArrivedAt(p, i) ==> ArrivedAt(p1, i))
  }

  // What only Send and Recv change.
  ghost predicate Calm(p: Peer, p1: Peer) {
    && Grows(p, p1) && LogOf(p1) == LogOf(p) && p1.accepted == p.accepted && p1.taken == p.taken
    && p1.delivered == p.delivered && Returned(p1) == Returned(p)
  }

  lemma {:induction false} GenuineGrows(p: Peer, p1: Peer, pkt: Packet)
    requires Grows(p, p1) && Genuine(p, pkt)
    ensures Genuine(p1, pkt)
  {
    var ws := Decode(p.ep.cfg.conv, pkt.bytes).0;
    forall i | 0 <= i < |ws| ensures SegmentGenuine(p1, ws[i], pkt.stamps[i]) {
      assert SegmentGenuine(p, ws[i], pkt.stamps[i]);
    }
  }

  // q's view of p survives any growth of p.
  lemma {:induction false} OtherSide(p: Peer, p1: Peer, q: Peer)
    requires q.ep.cfg.Valid() && Grows(p, p1) && SendSide(q, p) && RecvSide(q, p)
    requires p1.nxt == |p1.sent|
    ensures SendSide(q, p1) && RecvSide(q, p1)
  {
    var r := q.ep.rcv;
    assert p1.sent[q.rnxt - |r.queue|..q.rnxt] == p.sent[q.rnxt - |r.queue|..q.rnxt];
  }
}
