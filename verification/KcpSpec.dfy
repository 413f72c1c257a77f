/** The state of one transport endpoint and what each of its operations does to it,
    as functions on values.  KcpEndpoint proves the loops of the implementation
    against these functions; KcpDelivery proves what two endpoints achieve together.
 */
module KcpSpec {
  import opened Words
  import opened KcpWire

  const MAX32: u32 := 0xFFFF_FFFF
  const MAX_WINDOW := 0xFFFF
  const RTO_MAX: u32 := 60000
  const PROBE_INIT: u32 := 500
  const PROBE_LIMIT: u32 := 120000
  const THRESH_MIN: u32 := 2

  datatype Segment = Segment(conv: u32, cmd: u8, frg: u8, wnd: u16, ts: u32, sn: u32, una: u32,
                             rto: u32, xmit: u32, resendts: u32, fastack: u32, acked: bool, data: Payload)

  datatype Ack = Ack(sn: u32, ts: u32)

  // Settings, fixed before traffic starts.
  datatype Config = Config(conv: u32, mtu: u32, snd_wnd: u32, rcv_wnd: u32, interval: u32, minrto: u32,
                           nodelay: bool, fastresend: u32, nocwnd: bool, stream: bool, dead_link: u32)
  {
    predicate Valid() {
      50 <= mtu && 0 < rcv_wnd <= HALF && fastresend < HALF
    }
    function Mss(): u32
      requires Valid()
    {
      mtu - OVERHEAD
    }
  }

  datatype Sender = Sender(queue: seq<Segment>, buf: seq<Segment>, una: u32, nxt: u32)

  // buf is the out-of-order store, keyed by sequence number.
  datatype Receiver = Receiver(buf: map<u32, Segment>, queue: seq<Segment>, nxt: u32, acks: seq<Ack>)

  // Congestion, round-trip and probing state.
  datatype Control = Control(rmt_wnd: u32, cwnd: u32, ssthresh: u32, incr: u32, srtt: int, rttvar: int, rto: u32,
                             askSend: bool, askTell: bool, ts_probe: u32, probe_wait: u32, state: u32)

  datatype Endpoint = Endpoint(cfg: Config, snd: Sender, rcv: Receiver, ctl: Control)

  function NewEndpoint(cfg: Config): Endpoint {
    Endpoint(cfg, Sender([], [], 0, 0), Receiver(map[], [], 0, []),
             Control(32, 0, 2, 0, 0, 0, 200, false, false, 0, 0, 0))
  }

  function NewSegment(frg: u8, data: Payload): Segment {
    Segment(0, 0, frg, 0, 0, 0, 0, 0, 0, 0, 0, false, data)
  }

  function ToWire(s: Segment): Wire {
    Wire(s.conv, s.cmd, s.frg, s.wnd, s.ts, s.sn, s.una, s.data)
  }

  function FromWire(w: Wire): Segment {
    Segment(w.conv, w.cmd, w.frg, w.wnd, w.ts, w.sn, w.una, 0, 0, 0, 0, false, w.data)
  }

  function Join(q: seq<Segment>): Bytes {
    if q == [] then [] else q[0].data + Join(q[1..])
  }

  // ---- Send -------------------------------------------------------------------

  // The message cut into pieces of at most mss bytes; frg counts the pieces that follow.
  function Fragments(msg: Payload, mss: nat): (f: seq<Segment>)
    requires mss > 0
    ensures |f| > 0
    decreases |msg|
  {
    if |msg| <= mss then [NewSegment(0, msg)]
    else
      var rest := Fragments(msg[mss..], mss);
      [NewSegment(|rest| % 256, msg[..mss])] + rest
  }

  function Chunks(msg: Payload, mss: nat): (f: seq<Segment>)
    requires mss > 0
    ensures |f| > 0
    decreases |msg|
  {
    if |msg| <= mss then [NewSegment(0, msg)]
    else [NewSegment(0, msg[..mss])] + Chunks(msg[mss..], mss)
  }

  // Stream mode first fills up the last queued segment: how many bytes that takes.
  function Room(queue: seq<Segment>, len: nat, mss: nat): nat {
    if queue != [] && |queue[|queue| - 1].data| < mss
    then Min(len, mss - |queue[|queue| - 1].data|)
    else 0
  }

  function FillLast(queue: seq<Segment>, msg: Payload, mss: nat): seq<Segment>
    requires mss < U32
  {
    var extend := Room(queue, |msg|, mss);
    if extend == 0 then queue
    else
      var n := |queue| - 1;
      queue[n := queue[n].(data := queue[n].data + msg[..extend])]
  }

  function Count(len: nat, mss: nat): nat
    requires mss > 0
  {
    if len <= mss then 1 else (len + mss - 1) / mss
  }

  function Send(ep: Endpoint, msg: Payload): (Endpoint, int)
    requires ep.cfg.Valid()
  {
    var mss := ep.cfg.Mss();
    if |msg| == 0 then (ep, -1)
    else if !ep.cfg.stream then
      if Count(|msg|, mss) > 255 then (ep, -2)
      else (ep.(snd := ep.snd.(queue := ep.snd.queue + Fragments(msg, mss))), 0)
    else
      var filled := FillLast(ep.snd.queue, msg, mss);
      var rest := msg[Room(ep.snd.queue, |msg|, mss)..];
      var queue := if rest == [] || Count(|rest|, mss) > 255 then filled else filled + Chunks(rest, mss);
      (ep.(snd := ep.snd.(queue := queue)), if rest != [] && Count(|rest|, mss) > 255 then -2 else 0)
  }

  // ---- acknowledgements on the sending side -----------------------------------

  function UnaCount(buf: seq<Segment>, una: u32): (n: nat)
    ensures n <= |buf|
  {
    if buf != [] && TimeDiff(una, buf[0].sn) > 0 then 1 + UnaCount(buf[1..], una) else 0
  }

  // parse_una followed by shrink_buf
  function DropAcked(s: Sender, una: u32): Sender {
    var buf := s.buf[UnaCount(s.buf, una)..];
    s.(buf := buf, una := if buf != [] then buf[0].sn else s.nxt)
  }

  function Freed(s: Segment): Segment {
    s.(acked := true, data := [])
  }

  // parse_ack: the acknowledged entry keeps its place but gives up its payload.
  function MarkAcked(s: Sender, sn: u32): Sender {
    var k := TimeDiff(sn, s.una);
    if 0 <= k < |s.buf| then s.(buf := s.buf[k := Freed(s.buf[k])]) else s
  }

  // parse_fastack on one entry that precedes the acknowledged one
  function Skipped(s: Segment, ts: u32): Segment {
    if TimeDiff(s.ts, ts) <= 0 && s.fastack != MAX32 then s.(fastack := s.fastack + 1) else s
  }

  // How many entries of the window precede sn, if sn is in the window at all.
  function Preceding(s: Sender, sn: u32): nat {
    var k := TimeDiff(sn, s.una);
    if 0 <= k < |s.buf| then k else 0
  }

  function CountSkips(s: Sender, sn: u32, ts: u32): Sender {
    var k := Preceding(s, sn);
    s.(buf := seq(|s.buf|, i requires 0 <= i < |s.buf| => if i < k then Skipped(s.buf[i], ts) else s.buf[i]))
  }

  // parse_fastack asks for a retransmission.
  predicate SkipsDue(s: Sender, sn: u32, ts: u32, fastresend: u32) {
    exists i :: 0 <= i < Preceding(s, sn) &&
                Skipped(s.buf[i], ts) != s.buf[i] && s.buf[i].fastack + 1 >= fastresend
  }

  // ---- receiving --------------------------------------------------------------

  // Move what is ready from the out-of-order store to the receive queue.
  function MoveReady(r: Receiver, wnd: u32): Receiver
    decreases |r.buf|
  {
    if r.nxt in r.buf && |r.queue| < wnd
    then MoveReady(Receiver(r.buf - {r.nxt}, r.queue + [r.buf[r.nxt]], Add32(r.nxt, 1), r.acks), wnd)
    else r
  }

  predicate InWindow(r: Receiver, wnd: u32, sn: u32) {
    TimeDiff(sn, Add32(r.nxt, wnd)) < 0
  }

  function Store(r: Receiver, seg: Segment): Receiver {
    if seg.sn in r.buf then r else r.(buf := r.buf[seg.sn := seg])
  }

  // parse_data
  function ParseData(r: Receiver, wnd: u32, seg: Segment): Receiver {
    if !InWindow(r, wnd, seg.sn) || TimeDiff(seg.sn, r.nxt) < 0 then r
    else MoveReady(Store(r, seg), wnd)
  }

  // What Input does with one push segment.
  function TakePush(r: Receiver, wnd: u32, w: Wire): Receiver {
    if !InWindow(r, wnd, w.sn) then r
    else
      var r1 := r.(acks := r.acks + [Ack(w.sn, w.ts)]);
      if TimeDiff(w.sn, r.nxt) >= 0 then ParseData(r1, wnd, FromWire(w)) else r1
  }

  // ---- Recv -------------------------------------------------------------------

  // One past the last fragment of the message at the front of the queue.
  function MessageEnd(q: seq<Segment>): (n: nat)
    ensures n <= |q|
    ensures q != [] ==> n > 0
  {
    if q == [] then 0 else if q[0].frg == 0 then 1 else 1 + MessageEnd(q[1..])
  }

  // A whole message is waiting.  The fragment count is computed on a byte.
  predicate Ready(q: seq<Segment>) {
    q != [] && (q[0].frg == 0 || |q| >= (q[0].frg + 1) % 256)
  }

  function PeekSize(q: seq<Segment>): int {
    if Ready(q) then |Join(q[..MessageEnd(q)])| else -1
  }

  // Recv into a buffer of cap bytes: new state, result code and message.
  function Recv(ep: Endpoint, cap: nat): (Endpoint, int, Bytes) {
    var size := PeekSize(ep.rcv.queue);
    if size < 0 then (ep, -1, [])
    else if size > cap then (ep, -2, [])
    else
      var n := MessageEnd(ep.rcv.queue);
      var rcv := MoveReady(ep.rcv.(queue := ep.rcv.queue[n..]), ep.cfg.rcv_wnd);
      var tell := |ep.rcv.queue| >= ep.cfg.rcv_wnd && |rcv.queue| < ep.cfg.rcv_wnd;
      (ep.(rcv := rcv, ctl := ep.ctl.(askTell := ep.ctl.askTell || tell)), size, Join(ep.rcv.queue[..n]))
  }

  // ---- round-trip estimate ----------------------------------------------------

  function Bound(lower: u32, middle: u32, upper: u32): u32 {
    Min(Max(lower, middle), upper)
  }

  // Smoothed estimate and deviation after one sample; >> is an arithmetic shift,
  // so division rounds down.
  function Smooth(srtt: int, rttvar: int, rtt: int): (int, int) {
    if srtt == 0 then (rtt, rtt / 2)
    else
      var delta := rtt - srtt;
      var srtt1 := srtt + delta / 8;
      var dev := if delta < 0 then -delta else delta;
      (srtt1, rttvar + (dev - rttvar) / (if rtt < srtt1 - rttvar then 32 else 4))
  }

  // The retransmission timeout, on uint32.
  function Timeout(srtt: int, rttvar: int, interval: u32): u32 {
    (srtt % U32 + Max(interval, rttvar % U32 * 4 % U32)) % U32
  }

  // update_ack
  function UpdateRtt(c: Control, cfg: Config, rtt: nat): Control {
    var (srtt, rttvar) := Smooth(c.srtt, c.rttvar, rtt);
    c.(srtt := srtt, rttvar := rttvar, rto := Bound(cfg.minrto, Timeout(srtt, rttvar, cfg.interval), RTO_MAX))
  }

  // ---- congestion window ------------------------------------------------------

  function Mul32(a: u32, b: u32): u32 { a * b % U32 }

  function Div32(a: u32, b: u32): u32
    requires b > 0
  {
    QuotientBound(a, b);
    a / b
  }

  lemma {:induction false} ProductBound(q: nat, b: nat)
    requires b > 0
    ensures q <= q * b
  {
  }

  lemma {:induction false} QuotientBound(a: nat, b: nat)
    requires b > 0
    ensures 0 <= a / b <= a
  {
    var q, r := a / b, a % b;
    assert a == q * b + r;
    ProductBound(q, b);
  }

  // Input: the window grows when the oldest unacknowledged number moved.
  function GrowWindow(c: Control, mss: u32): Control
    requires mss > 0
  {
    if c.cwnd >= c.rmt_wnd then c
    else
      var c1 :=
        if c.cwnd < c.ssthresh then c.(cwnd := c.cwnd + 1, incr := Add32(c.incr, mss))
        else
          var base: u32 := Max(c.incr, mss);
          var incr := Add32(base, Add32(Div32(Mul32(mss, mss), base), mss / 16));
          c.(incr := incr,
             cwnd := if Mul32(c.cwnd + 1, mss) <= incr then Div32(Add32(incr, mss - 1), mss) else c.cwnd);
      if c1.cwnd > c1.rmt_wnd then c1.(cwnd := c1.rmt_wnd, incr := Mul32(c1.rmt_wnd, mss)) else c1
  }

  // flush: rate halving after a fast retransmission, restart after a timeout.
  function AfterFlush(c: Control, mss: u32, cwnd: u32, inflight: u32, resent: u32, change: bool, lost: bool): Control {
    var half := Max(inflight / 2, THRESH_MIN);
    var c1 := if change
              then c.(ssthresh := half, cwnd := Add32(half, resent), incr := Mul32(Add32(half, resent), mss))
              else c;
    var c2 := if lost then c1.(ssthresh := Max(cwnd / 2, THRESH_MIN), cwnd := 1, incr := mss) else c1;
    if c2.cwnd < 1 then c2.(cwnd := 1, incr := mss) else c2
  }

  // ---- flush ------------------------------------------------------------------

  // wnd_unused, truncated to the 16-bit field
  function Unused(r: Receiver, wnd: u32): u16 {
    if |r.queue| < wnd then (wnd - |r.queue|) % 0x1_0000 else 0
  }

  function AckWire(ep: Endpoint, a: Ack): Wire {
    Wire(ep.cfg.conv, CMD_ACK, 0, Unused(ep.rcv, ep.cfg.rcv_wnd), a.ts, a.sn, ep.rcv.nxt, [])
  }

  // Of the first k pending acks, those worth sending; the last one always is.
  function AckWires(ep: Endpoint, k: nat): seq<Wire>
    requires k <= |ep.rcv.acks|
  {
    if k == 0 then []
    else
      var a := ep.rcv.acks[k - 1];
      AckWires(ep, k - 1) +
      (if TimeDiff(a.sn, ep.rcv.nxt) >= 0 || k == |ep.rcv.acks| then [AckWire(ep, a)] else [])
  }

  // Window probing, when the peer last announced a window of zero.
  function Probe(c: Control, current: u32): Control {
    if c.rmt_wnd != 0 then c.(ts_probe := 0, probe_wait := 0)
    else if c.probe_wait == 0 then c.(probe_wait := PROBE_INIT, ts_probe := Add32(current, PROBE_INIT))
    else if TimeDiff(current, c.ts_probe) >= 0 then
      var w: u32 := Max(c.probe_wait, PROBE_INIT);
      var wait: u32 := Min(Add32(w, w / 2), PROBE_LIMIT);
      c.(probe_wait := wait, ts_probe := Add32(current, wait), askSend := true)
    else c
  }

  function LastAck(ep: Endpoint): Ack {
    var n := |ep.rcv.acks|;
    if n > 0 then ep.rcv.acks[n - 1] else Ack(0, 0)
  }

  // The header reused for probes still carries the numbers of the last ack.
  function ProbeWire(ep: Endpoint, cmd: u8): Wire {
    AckWire(ep, LastAck(ep)).(cmd := cmd)
  }

  function ProbeWires(ep: Endpoint, c: Control): seq<Wire> {
    (if c.askSend then [ProbeWire(ep, CMD_WASK)] else []) + (if c.askTell then [ProbeWire(ep, CMD_WINS)] else [])
  }

  function EffectiveWindow(cfg: Config, c: Control): u32 {
    var w: u32 := Min(cfg.snd_wnd, c.rmt_wnd);
    if cfg.nocwnd then w else Min(c.cwnd, w)
  }

  // How many queued segments enter the window.
  function Slots(s: Sender, cwnd: u32): nat {
    if |s.buf| >= cwnd then 0 else Min(|s.queue|, cwnd - |s.buf|)
  }

  function Numbered(seg: Segment, conv: u32, sn: u32): Segment {
    seg.(conv := conv, cmd := CMD_PUSH, sn := sn)
  }

  // The window slides: the first n queued segments get the next n numbers.
  function Slide(s: Sender, n: nat, conv: u32): Sender
    requires n <= |s.queue| && n < U32
  {
    Sender(s.queue[n..],
           s.buf + seq(n, i requires 0 <= i < n => Numbered(s.queue[i], conv, Add32(s.nxt, i))),
           s.una, Add32(s.nxt, n))
  }

  datatype Kind = Hold | First | Fast | Early | Lost

  datatype TxEnv = TxEnv(cfg: Config, rto: u32, resent: u32, noNew: bool, wnd: u16, una: u32)

  // Whether, and why, a segment in flight is transmitted now.
  function Decide(s: Segment, e: TxEnv, current: u32): Kind {
    if s.xmit == 0 then First
    else if s.fastack >= e.resent && s.fastack != MAX32 then Fast
    else if s.fastack > 0 && s.fastack != MAX32 && e.noNew then Early
    else if TimeDiff(current, s.resendts) >= 0 then Lost
    else Hold
  }

  // Timers and counters of a segment that is about to be transmitted.
  function Rearmed(s: Segment, kind: Kind, e: TxEnv, current: u32): Segment {
    match kind
    case Hold => s
    case First => s.(rto := e.rto, resendts := Add32(current, e.rto))
    case Fast => s.(fastack := MAX32, rto := e.rto, resendts := Add32(current, e.rto))
    case Early => s.(fastack := MAX32, rto := e.rto, resendts := Add32(current, e.rto))
    case Lost =>
      var rto := Add32(s.rto, if e.cfg.nodelay then e.rto / 2 else e.rto);
      s.(rto := rto, fastack := 0, resendts := Add32(current, rto))
  }

  // Progress of the transmission pass.
  datatype Tx = Tx(done: seq<Segment>, emits: seq<Wire>, current: u32, change: bool, lost: bool, dead: bool, next: u32)

  function Nearest(resendts: u32, current: u32, next: u32): u32 {
    var rto := TimeDiff(resendts, current);
    if 0 < rto < next then rto else next
  }

  // now(k) is the clock reading taken after the k-th transmission.
  function TxStep(t: Tx, s: Segment, e: TxEnv, now: nat -> u32): Tx {
    if s.acked then t.(done := t.done + [s])
    else
      var kind := Decide(s, e, t.current);
      if kind == Hold then
        t.(done := t.done + [s], next := Nearest(s.resendts, t.current, t.next))
      else
        var current := now(|t.emits| + 1);
        var s1 := Rearmed(s, kind, e, t.current).(xmit := Add32(s.xmit, 1), ts := current, wnd := e.wnd, una := e.una);
        Tx(t.done + [s1], t.emits + [ToWire(s1)], current, t.change || kind == Fast || kind == Early,
           t.lost || kind == Lost, t.dead || s1.xmit >= e.cfg.dead_link, Nearest(s1.resendts, current, t.next))
  }

  function TxAll(buf: seq<Segment>, e: TxEnv, now: nat -> u32): (t: Tx)
    ensures |t.done| == |buf|
  {
    if buf == [] then Tx([], [], now(0), false, false, false, e.cfg.interval)
    else TxStep(TxAll(buf[..|buf| - 1], e, now), buf[|buf| - 1], e, now)
  }

  datatype Flushed = Flushed(ep: Endpoint, emits: seq<Wire>, next: u32)

  function Resent(cfg: Config): u32 {
    if cfg.fastresend == 0 then MAX32 else cfg.fastresend
  }

  // The sending side once the window has slid.
  function Slid(ep: Endpoint, c: Control): Sender {
    Slide(ep.snd, Slots(ep.snd, EffectiveWindow(ep.cfg, c)), ep.cfg.conv)
  }

  function PassEnv(ep: Endpoint, c: Control): TxEnv {
    TxEnv(ep.cfg, c.rto, Resent(ep.cfg), Slots(ep.snd, EffectiveWindow(ep.cfg, c)) == 0,
          Unused(ep.rcv, ep.cfg.rcv_wnd), ep.rcv.nxt)
  }

  // The transmission pass, which only a full flush makes.
  function Pass(ep: Endpoint, full: bool, c: Control, now: nat -> u32): (t: Tx)
    ensures |t.done| == |Slid(ep, c).buf|
  {
    if full then TxAll(Slid(ep, c).buf, PassEnv(ep, c), now)
    else Tx(Slid(ep, c).buf, [], now(0), false, false, false, ep.cfg.interval)
  }

  function PassControl(ep: Endpoint, c: Control, t: Tx): Control
    requires ep.cfg.Valid()
  {
    var snd := Slid(ep, c);
    var c1 := c.(askSend := false, askTell := false, state := if t.dead then MAX32 else c.state);
    if ep.cfg.nocwnd then c1
    else AfterFlush(c1, ep.cfg.Mss(), EffectiveWindow(ep.cfg, c), Sub32(snd.nxt, snd.una), Resent(ep.cfg),
                    t.change, t.lost)
  }

  // flush: pending acks, window probes, new segments into the window, and, for a full
  // flush, the segments due for (re)transmission.
  function Flush(ep: Endpoint, full: bool, probeNow: u32, now: nat -> u32): Flushed
    requires ep.cfg.Valid()
  {
    var c := Probe(ep.ctl, probeNow);
    var t := Pass(ep, full, c, now);
    Flushed(Endpoint(ep.cfg, Slid(ep, c).(buf := t.done), ep.rcv.(acks := []), PassControl(ep, c, t)),
            AckWires(ep, |ep.rcv.acks|) + ProbeWires(ep, c) + t.emits, t.next)
  }

  // ---- Input ------------------------------------------------------------------

  // The sending side takes in the cumulative and the selective acknowledgement.
  function TakeAck(s: Sender, w: Wire): Sender {
    var s1 := DropAcked(s, w.una);
    if w.cmd == CMD_ACK then CountSkips(MarkAcked(s1, w.sn), w.sn, w.ts) else s1
  }

  // The effect of one incoming segment.
  function InputSegment(ep: Endpoint, w: Wire, regular: bool): Endpoint {
    Endpoint(ep.cfg, TakeAck(ep.snd, w),
             if w.cmd == CMD_PUSH then TakePush(ep.rcv, ep.cfg.rcv_wnd, w) else ep.rcv,
             ep.ctl.(rmt_wnd := if regular then w.wnd else ep.ctl.rmt_wnd,
                     askTell := ep.ctl.askTell || w.cmd == CMD_WASK))
  }

  // The segment moved the window or calls for a fast retransmission.
  predicate Urgent(ep: Endpoint, w: Wire) {
    || UnaCount(ep.snd.buf, w.una) > 0
    || (w.cmd == CMD_ACK &&
        SkipsDue(MarkAcked(DropAcked(ep.snd, w.una), w.sn), w.sn, w.ts, ep.cfg.fastresend))
  }

  function InputAll(ep: Endpoint, ws: seq<Wire>, regular: bool): (r: Endpoint)
    ensures r.cfg == ep.cfg
    decreases ws
  {
    if ws == [] then ep else InputAll(InputSegment(ep, ws[0], regular), ws[1..], regular)
  }

  predicate AnyUrgent(ep: Endpoint, ws: seq<Wire>, regular: bool)
    decreases ws
  {
    ws != [] && (Urgent(ep, ws[0]) || AnyUrgent(InputSegment(ep, ws[0], regular), ws[1..], regular))
  }

  // Timestamps of the acks in a datagram, in order.
  function AckTimes(ws: seq<Wire>): seq<u32> {
    if ws == [] then []
    else (if ws[0].cmd == CMD_ACK then [ws[0].ts] else []) + AckTimes(ws[1..])
  }

  // After the last segment of a datagram: round-trip sample and window growth.
  function Settle(ep: Endpoint, before: u32, acks: seq<u32>, regular: bool, current: u32): Endpoint
    requires ep.cfg.Valid()
  {
    var c1 := if acks != [] && regular && TimeDiff(current, acks[|acks| - 1]) >= 0
              then UpdateRtt(ep.ctl, ep.cfg, TimeDiff(current, acks[|acks| - 1])) else ep.ctl;
    var c2 := if !ep.cfg.nocwnd && TimeDiff(ep.snd.una, before) > 0 then GrowWindow(c1, ep.cfg.Mss()) else c1;
    ep.(ctl := c2)
  }

  datatype Clock = Clock(rtt: u32, probe: u32, now: nat -> u32)

  // After a datagram: a full flush if the window moved or a loss is suspected, an ack-only
  // flush if enough acks are waiting or the caller wants them out at once.
  predicate FlushDue(ep: Endpoint, urgent: bool, ackNoDelay: bool) {
    urgent || |ep.rcv.acks| >= ep.cfg.mtu / OVERHEAD || (ackNoDelay && |ep.rcv.acks| > 0)
  }

  function Respond(ep: Endpoint, urgent: bool, ackNoDelay: bool, clock: Clock): (Endpoint, seq<Wire>)
    requires ep.cfg.Valid()
  {
    if FlushDue(ep, urgent, ackNoDelay) then
      var f := Flush(ep, urgent, clock.probe, clock.now);
      (f.ep, f.emits)
    else (ep, [])
  }

  // Input: new state, result code and the segments flushed on the way out.
  function Input(ep: Endpoint, data: Bytes, regular: bool, ackNoDelay: bool, clock: Clock): (Endpoint, int, seq<Wire>)
    requires ep.cfg.Valid()
  {
    if |data| < OVERHEAD then (ep, -1, [])
    else
      var (ws, code) := Decode(ep.cfg.conv, data);
      var ep1 := InputAll(ep, ws, regular);
      if code < 0 then (ep1, code, [])
      else
        var ep2 := Settle(ep1, ep.snd.una, AckTimes(ws), regular, clock.rtt);
        var (ep3, emits) := Respond(ep2, AnyUrgent(ep, ws, regular), ackNoDelay, clock);
        (ep3, 0, emits)
  }
}
