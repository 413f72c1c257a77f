/** One connection as the implementation keeps it, with the loops of its operations,
    proved against KcpSpec.  Ring buffers are sequences; the receive heap and the output
    buffer are objects of their own.
 */
module KcpEndpoint {
  import opened Words
  import opened KcpWire
  import opened KcpSpec
  import opened KcpInvariant
  import opened KcpSkips
  import KcpFlow
  import opened KcpBytes
  import opened KcpHeap
  import opened KcpOutput

  const MTU_LIMIT := 1500

  // The local variables of the transmission pass.
  datatype Tally = Tally(current: u32, sent: nat, change: bool, lost: bool, dead: bool, next: u32)

  predicate Tallied(r: Tally, t: Tx) {
    r == Tally(t.current, |t.emits|, t.change, t.lost, t.dead, t.next)
  }

  // The output buffer after the first k pending acks, room made for filtered ones included.
  function PackAcks(ep: Endpoint, k: nat): Packer
    requires k <= |ep.rcv.acks|
  {
    if k == 0 then EmptyPacker
    else
      var p, a := PackAcks(ep, k - 1), ep.rcv.acks[k - 1];
      if TimeDiff(a.sn, ep.rcv.nxt) >= 0 || k == |ep.rcv.acks| then Put(p, AckWire(ep, a), ep.cfg.mtu)
      else MakeSpace(p, OVERHEAD, ep.cfg.mtu)
  }

  // p and q differ at most by a makeSpace that nothing was written after.
  predicate Alike(p: Packer, q: Packer, mtu: nat) {
    MakeSpace(p, OVERHEAD, mtu) == MakeSpace(q, OVERHEAD, mtu)
  }

  lemma {:induction false} AlikePut(p: Packer, q: Packer, w: Wire, mtu: nat)
    requires Alike(p, q, mtu) && OVERHEAD + |w.data| <= mtu
    ensures Put(p, w, mtu) == Put(q, w, mtu)
  {
    SpareSpace(p, OVERHEAD + |w.data|, mtu);
    SpareSpace(q, OVERHEAD + |w.data|, mtu);
  }

  lemma {:induction false} AlikeAppend(p: Packer, ws: seq<Wire>, w: Wire, mtu: nat)
    requires Alike(p, PutAll(ws, mtu), mtu) && OVERHEAD + |w.data| <= mtu
    ensures Put(p, w, mtu) == PutAll(ws + [w], mtu)
  {
    AlikePut(p, PutAll(ws, mtu), w, mtu);
    PutFromStep(EmptyPacker, ws, w, mtu);
  }

  lemma {:induction false} AlikeSpare(p: Packer, q: Packer, mtu: nat)
    requires Alike(p, q, mtu) && OVERHEAD <= mtu
    ensures Alike(MakeSpace(p, OVERHEAD, mtu), q, mtu)
  {
    SpareSpace(p, OVERHEAD, mtu);
  }

  lemma {:induction false} PackAcksAlike(ep: Endpoint, k: nat)
    requires ep.cfg.Valid() && k <= |ep.rcv.acks|
    ensures Alike(PackAcks(ep, k), PutAll(AckWires(ep, k), ep.cfg.mtu), ep.cfg.mtu)
  {
    if k > 0 {
      PackAcksAlike(ep, k - 1);
      var a, mtu := ep.rcv.acks[k - 1], ep.cfg.mtu;
      if TimeDiff(a.sn, ep.rcv.nxt) >= 0 || k == |ep.rcv.acks| {
        AlikeAppend(PackAcks(ep, k - 1), AckWires(ep, k - 1), AckWire(ep, a), mtu);
      } else {
        assert AckWires(ep, k) == AckWires(ep, k - 1);
        AlikeSpare(PackAcks(ep, k - 1), PutAll(AckWires(ep, k), mtu), mtu);
      }
    }
  }

  // Filtered acks leave no trace in the datagrams.
  lemma {:induction false} PackHead(ep: Endpoint, ws: seq<Wire>)
    requires ep.cfg.Valid()
    requires forall w <- ws :: Fits(ep.cfg.conv, ep.cfg.mtu, w)
    ensures Finish(PutFrom(PackAcks(ep, |ep.rcv.acks|), ws, ep.cfg.mtu))
         == Pack(AckWires(ep, |ep.rcv.acks|) + ws, ep.cfg.mtu)
  {
    var n, mtu := |ep.rcv.acks|, ep.cfg.mtu;
    PackAcksAlike(ep, n);
    var p, q := PackAcks(ep, n), PutAll(AckWires(ep, n), mtu);
    PutFromAppend(EmptyPacker, AckWires(ep, n), ws, mtu);
    if ws == [] {
      SpareSpace(p, OVERHEAD, mtu);
      SpareSpace(q, OVERHEAD, mtu);
    } else {
      AlikeFrom(p, q, ws, ep.cfg.conv, mtu);
    }
  }

  lemma {:induction false} ProbesInTurn(p: Packer, ep: Endpoint, c: Control)
    ensures var p1 := if c.askSend then Put(p, ProbeWire(ep, CMD_WASK), ep.cfg.mtu) else p;
            var p2 := if c.askTell then Put(p1, ProbeWire(ep, CMD_WINS), ep.cfg.mtu) else p1;
            PutFrom(p, ProbeWires(ep, c), ep.cfg.mtu) == p2
  {
    var w1, w2 := ProbeWire(ep, CMD_WASK), ProbeWire(ep, CMD_WINS);
    PutFromStep(p, [], w1, ep.cfg.mtu);
    PutFromStep(p, if c.askSend then [w1] else [], w2, ep.cfg.mtu);
    assert [] + [w1] == [w1];
  }

  lemma {:induction false} PackParts(ep: Endpoint, ys: seq<Wire>, zs: seq<Wire>)
    requires ep.cfg.Valid()
    requires forall w <- ys :: Fits(ep.cfg.conv, ep.cfg.mtu, w)
    requires forall w <- zs :: Fits(ep.cfg.conv, ep.cfg.mtu, w)
    ensures Finish(PutFrom(PutFrom(PackAcks(ep, |ep.rcv.acks|), ys, ep.cfg.mtu), zs, ep.cfg.mtu))
         == Pack(AckWires(ep, |ep.rcv.acks|) + ys + zs, ep.cfg.mtu)
  {
    var xs := AckWires(ep, |ep.rcv.acks|);
    assert xs + ys + zs == xs + (ys + zs);
    PutFromAppend(PackAcks(ep, |ep.rcv.acks|), ys, zs, ep.cfg.mtu);
    PackHead(ep, ys + zs);
  }

  // What the flush writes is what Pack makes of what it emits.
  lemma {:induction false} FlushPacked(ep: Endpoint, full: bool, probeNow: u32, now: nat -> u32)
    requires ep.cfg.Valid() && SenderInv(ep.cfg, ep.snd) && ep.ctl.rmt_wnd <= MAX_WINDOW
    ensures var c := Probe(ep.ctl, probeNow);
            Finish(PutFrom(PutFrom(PackAcks(ep, |ep.rcv.acks|), ProbeWires(ep, c), ep.cfg.mtu),
                           Pass(ep, full, c, now).emits, ep.cfg.mtu))
            == Pack(Flush(ep, full, probeNow, now).emits, ep.cfg.mtu)
  {
    var c := Probe(ep.ctl, probeNow);
    PassKeeps(ep, full, c, now);
    PackParts(ep, ProbeWires(ep, c), Pass(ep, full, c, now).emits);
  }

  lemma {:induction false} AlikeFrom(p: Packer, q: Packer, ws: seq<Wire>, conv: u32, mtu: nat)
    requires Alike(p, q, mtu) && ws != [] && forall w <- ws :: Fits(conv, mtu, w)
    ensures PutFrom(p, ws, mtu) == PutFrom(q, ws, mtu)
  {
    var n := |ws| - 1;
    assert ws[0] in ws;
    if n == 0 {
      AlikePut(p, q, ws[0], mtu);
    } else {
      AlikeFrom(p, q, ws[..n], conv, mtu);
    }
  }

  // What the parsing loop remembers of the acks it saw.
  predicate Latest(anyAck: bool, latest: u32, acks: seq<u32>) {
    anyAck == (acks != []) && (anyAck ==> latest == acks[|acks| - 1])
  }

  // The payload of a push segment is copied: it is in the window and not there yet.
  predicate Copied(r: Receiver, wnd: u32, w: Wire) {
    w.cmd == CMD_PUSH && InWindow(r, wnd, w.sn) && TimeDiff(w.sn, r.nxt) >= 0 && w.sn !in r.buf
  }

  // Payloads are copied into pooled buffers of MTU_LIMIT bytes, and those that are fit there.
  predicate CopiesFit(ep: Endpoint, ws: seq<Wire>, regular: bool)
    decreases ws
  {
    ws == [] ||
    ((Copied(ep.rcv, ep.cfg.rcv_wnd, ws[0]) ==> |ws[0].data| <= MTU_LIMIT) &&
     CopiesFit(InputSegment(ep, ws[0], regular), ws[1..], regular))
  }

  predicate Pooled(q: seq<Segment>) {
    forall seg <- q :: |seg.data| <= MTU_LIMIT
  }

  class Kcp {
    const cfg: Config
    var snd_queue: seq<Segment>
    var snd_buf: seq<Segment>
    var snd_una: u32
    var snd_nxt: u32
    var rcv_queue: seq<Segment>
    var rcv_nxt: u32
    var acklist: seq<Ack>
    const rcv_buf: SegmentHeap
    var ctl: Control
    const buffer: array<u8>

    ghost function Snd(): Sender
      reads this
    {
      Sender(snd_queue, snd_buf, snd_una, snd_nxt)
    }

    ghost function Rcv(): Receiver
      reads this, rcv_buf
    {
      Receiver(rcv_buf.store, rcv_queue, rcv_nxt, acklist)
    }

    ghost function View(): Endpoint
      reads this, rcv_buf
    {
      Endpoint(cfg, Snd(), Rcv(), ctl)
    }

    ghost predicate Valid()
      reads this, rcv_buf
    {
      EndpointInv(View()) && rcv_buf.Valid(rcv_nxt) && buffer.Length == (cfg.mtu + OVERHEAD) * 3
    }

    constructor (cfg: Config)
      requires cfg.Valid()
      ensures Valid() && View() == NewEndpoint(cfg)
      ensures fresh(rcv_buf) && fresh(buffer)
    {
      this.cfg := cfg;
      snd_queue, snd_buf, snd_una, snd_nxt := [], [], 0, 0;
      rcv_queue, rcv_nxt, acklist := [], 0, [];
      ctl := NewEndpoint(cfg).ctl;
      rcv_buf := new SegmentHeap();
      buffer := new u8[(cfg.mtu + OVERHEAD) * 3];
      new;
      InitKeeps(cfg);
    }

    // ---- acknowledgements -----------------------------------------------------

    method ParseUna(una: u32) returns (count: nat)
      modifies this`snd_buf
      ensures count == UnaCount(old(snd_buf), una)
      ensures snd_buf == old(snd_buf)[count..]
    {
      count := 0;
      while count < |snd_buf|
        invariant count <= |snd_buf|
        invariant count + UnaCount(snd_buf[count..], una) == UnaCount(snd_buf, una)
      {
        assert snd_buf[count..][1..] == snd_buf[count + 1..];
        if TimeDiff(una, snd_buf[count].sn) > 0 {
          count := count + 1;
        } else {
          break;
        }
      }
      snd_buf := snd_buf[count..];
    }

    method ShrinkBuf()
      modifies this`snd_una
      ensures snd_una == if snd_buf != [] then snd_buf[0].sn else snd_nxt
    {
      if |snd_buf| > 0 {
        snd_una := snd_buf[0].sn;
      } else {
        snd_una := snd_nxt;
      }
    }

    method ParseAck(sn: u32)
      requires cfg.Valid() && SenderInv(cfg, Snd())
      modifies this`snd_buf
      ensures Snd() == MarkAcked(old(Snd()), sn)
    {
      if TimeDiff(sn, snd_una) < 0 || TimeDiff(sn, snd_nxt) >= 0 {
        return;
      }
      ghost var k := TimeDiff(sn, snd_una);
      var i := 0;
      while i < |snd_buf|
        invariant 0 <= i <= k < |snd_buf| && snd_buf == old(snd_buf)
      {
        assert Entry(cfg, snd_buf[i], Add32(snd_una, i));
        if sn == snd_buf[i].sn {
          snd_buf := snd_buf[i := Freed(snd_buf[i])];
          break;
        }
        if TimeDiff(sn, snd_buf[i].sn) < 0 {
          break;
        }
        i := i + 1;
      }
    }

    method ParseFastack(sn: u32, ts: u32) returns (due: bool)
      requires cfg.Valid() && SenderInv(cfg, Snd())
      modifies this`snd_buf
      ensures Snd() == CountSkips(old(Snd()), sn, ts)
      ensures due == SkipsDue(old(Snd()), sn, ts, cfg.fastresend)
      ensures var k := TimeDiff(sn, snd_una);
              && |snd_buf| == |old(snd_buf)|
              && (forall j :: 0 <= j < |snd_buf| ==>
                    var seg := old(snd_buf)[j];
                    snd_buf[j] == if j < k < |snd_buf| && Counts(seg, ts)
                                  then seg.(fastack := seg.fastack + 1) else seg)
              && (due <==> exists j :: 0 <= j < |snd_buf| && snd_buf[j].fastack > old(snd_buf)[j].fastack &&
                                       snd_buf[j].fastack >= cfg.fastresend)
    {
      due := false;
      SkipsExactly(Snd(), sn, ts, cfg.fastresend);
      if TimeDiff(sn, snd_una) < 0 || TimeDiff(sn, snd_nxt) >= 0 {
        return;
      }
      ghost var k := TimeDiff(sn, snd_una);
      OrderedAround(cfg, Snd(), sn);
      due := SkipBefore(sn, ts, k);
    }

    // The loop of ParseFastack, for the number of the entry at k.
    method SkipBefore(sn: u32, ts: u32, ghost k: nat) returns (due: bool)
      requires k < |snd_buf| && SortedAround(snd_buf, sn, k)
      modifies this`snd_buf
      ensures |snd_buf| == |old(snd_buf)|
      ensures forall j :: 0 <= j < |snd_buf| ==>
                snd_buf[j] == if j < k then Skipped(old(snd_buf)[j], ts) else old(snd_buf)[j]
      ensures due <==> exists j :: 0 <= j < k && SkipDue(old(snd_buf)[j], ts, cfg.fastresend)
    {
      due := false;
      ghost var buf := snd_buf;
      var i := 0;
      while i < |snd_buf|
        invariant 0 <= i <= |snd_buf| == |buf| && i <= k + 1
        invariant forall j :: 0 <= j < |buf| ==>
                    snd_buf[j] == if j < i && j < k then Skipped(buf[j], ts) else buf[j]
        invariant due <==> (exists j :: 0 <= j < i && j < k && SkipDue(buf[j], ts, cfg.fastresend))
      {
        var seg := snd_buf[i];
        assert seg == buf[i];
        if TimeDiff(sn, seg.sn) < 0 {
          break;
        } else if sn != seg.sn && TimeDiff(seg.ts, ts) <= 0 {
          if seg.fastack != MAX32 {
            snd_buf := snd_buf[i := seg.(fastack := seg.fastack + 1)];
            if seg.fastack + 1 >= cfg.fastresend {
              due := true;
            }
          }
        }
        i := i + 1;
      }
    }

    // ---- receiving ------------------------------------------------------------

    // One turn of the loop below: pop the earliest segment and queue it, or push it back.
    method MoveOne() returns (moved: bool)
      requires rcv_buf.Valid(rcv_nxt) && |rcv_buf.segments| > 0
      modifies this`rcv_queue, this`rcv_nxt, rcv_buf
      ensures rcv_buf.Valid(rcv_nxt)
      ensures moved <==> old(rcv_nxt in rcv_buf.store && |rcv_queue| < cfg.rcv_wnd)
      ensures moved ==> |rcv_buf.segments| < old(|rcv_buf.segments|) &&
                        Rcv() == Receiver(old(rcv_buf.store) - {old(rcv_nxt)},
                                          old(rcv_queue + [rcv_buf.store[rcv_nxt]]), Add32(old(rcv_nxt), 1), acklist)
      ensures !moved ==> Rcv() == old(Rcv())
    {
      ghost var store := rcv_buf.store;
      var seg := rcv_buf.Pop(rcv_nxt);
      assert seg.sn == rcv_nxt <==> rcv_nxt in store;
      moved := seg.sn == rcv_nxt && |rcv_queue| < cfg.rcv_wnd;
      if moved {
        Rebase(rcv_buf.segments, rcv_buf.store, rcv_nxt);
        rcv_queue := rcv_queue + [seg];
        rcv_nxt := Add32(rcv_nxt, 1);
      } else {
        rcv_buf.Push(seg, rcv_nxt);
        assert rcv_buf.store == store;
      }
    }

    // The loop at the end of both parse_data and Recv.
    method MoveAvailable()
      requires 0 < cfg.rcv_wnd <= HALF && rcv_buf.Valid(rcv_nxt)
      modifies this`rcv_queue, this`rcv_nxt, rcv_buf
      ensures rcv_buf.Valid(rcv_nxt) && Rcv() == MoveReady(old(Rcv()), cfg.rcv_wnd)
    {
      while |rcv_buf.segments| > 0
        invariant rcv_buf.Valid(rcv_nxt)
        invariant MoveReady(Rcv(), cfg.rcv_wnd) == MoveReady(old(Rcv()), cfg.rcv_wnd)
        decreases |rcv_buf.segments|
      {
        var moved := MoveOne();
        if !moved {
          return;
        }
      }
      EmptyStore(rcv_buf.segments, rcv_buf.store);
    }

    method ParseDataSegment(seg: Segment) returns (repeated: bool)
      requires 0 < cfg.rcv_wnd <= HALF && rcv_buf.Valid(rcv_nxt)
      modifies this`rcv_queue, this`rcv_nxt, rcv_buf
      ensures rcv_buf.Valid(rcv_nxt) && Rcv() == ParseData(old(Rcv()), cfg.rcv_wnd, seg)
      ensures repeated <==> !(0 <= TimeDiff(seg.sn, old(rcv_nxt)) < cfg.rcv_wnd) || seg.sn in old(rcv_buf.store)
    {
      WindowExact(Rcv(), cfg.rcv_wnd, seg.sn);
      if TimeDiff(seg.sn, Add32(rcv_nxt, cfg.rcv_wnd)) >= 0 || TimeDiff(seg.sn, rcv_nxt) < 0 {
        return true;
      }
      repeated := seg.sn in rcv_buf.marks;
      if !repeated {
        rcv_buf.Push(seg, rcv_nxt);
      }
      MoveAvailable();
    }

    // ---- application side -----------------------------------------------------

    method PeekMessage() returns (length: int)
      ensures length == PeekSize(rcv_queue)
    {
      if |rcv_queue| == 0 {
        return -1;
      }
      if rcv_queue[0].frg == 0 {
        JoinOne(rcv_queue);
        return |rcv_queue[0].data|;
      }
      if |rcv_queue| < (rcv_queue[0].frg + 1) % 256 {
        return -1;
      }
      length := 0;
      var i := 0;
      while i < |rcv_queue|
        invariant 0 <= i <= |rcv_queue|
        invariant length == |Join(rcv_queue[..i])|
        invariant i + MessageEnd(rcv_queue[i..]) == MessageEnd(rcv_queue)
      {
        length := length + |rcv_queue[i].data|;
        JoinStep(rcv_queue, i);
        assert rcv_queue[i..][1..] == rcv_queue[i + 1..];
        i := i + 1;
        if rcv_queue[i - 1].frg == 0 {
          break;
        }
      }
    }

    // Recv into buf; the bytes beyond the message are left alone.
    method Receive(buf: array<u8>) returns (n: int)
      requires Valid() && buf != buffer
      modifies this`rcv_queue, this`rcv_nxt, this`ctl, rcv_buf, buf
      ensures Valid()
      ensures var (ep, code, msg) := Recv(old(View()), buf.Length);
              View() == ep && n == code && |msg| <= buf.Length && (n >= 0 ==> n == |msg|) &&
              buf[..] == msg + old(buf[..])[|msg|..]
    {
      ghost var ep0, bytes := View(), buf[..];
      RecvKeeps(ep0, buf.Length);
      var size := PeekMessage();
      if size < 0 {
        return -1;
      }
      if size > buf.Length {
        return -2;
      }
      var wasFull := |rcv_queue| >= cfg.rcv_wnd;
      n := PopMessage(buf);
      MoveAvailable();
      if |rcv_queue| < cfg.rcv_wnd && wasFull {
        ctl := ctl.(askTell := true);
      }
    }

    // Take the first queued segment, the i-th of q, and copy it behind those before it.
    method TakeSegment(buf: array<u8>, n: nat, ghost q: seq<Segment>, ghost i: nat, ghost bytes: Bytes)
      returns (seg: Segment)
      requires i < |q| && rcv_queue == q[i..] && n == |Join(q[..i])| <= buf.Length
      requires |Join(q[..i + 1])| <= buf.Length == |bytes|
      requires buf[..] == Join(q[..i]) + bytes[n..]
      modifies this`rcv_queue, buf
      ensures seg == q[i] && rcv_queue == q[i + 1..] && n + |seg.data| == |Join(q[..i + 1])|
      ensures buf[..] == Join(q[..i + 1]) + bytes[n + |seg.data|..]
    {
      seg := rcv_queue[0];
      JoinStep(q, i);
      assert q[i..][1..] == q[i + 1..];
      rcv_queue := rcv_queue[1..];
      Splice(Join(q[..i]), bytes, seg.data, buf[..]);
      CopyInto(buf, n, seg.data);
    }

    // Merge the fragments of the message at the front of the queue.
    method PopMessage(buf: array<u8>) returns (n: nat)
      requires Ready(rcv_queue) && |Join(rcv_queue[..MessageEnd(rcv_queue)])| <= buf.Length
      modifies this`rcv_queue, buf
      ensures var e := MessageEnd(old(rcv_queue));
              && rcv_queue == old(rcv_queue)[e..]
              && n == |Join(old(rcv_queue)[..e])|
              && buf[..] == Join(old(rcv_queue)[..e]) + old(buf[..])[n..]
    {
      ghost var q, e, bytes := rcv_queue, MessageEnd(rcv_queue), buf[..];
      ghost var i := 0;
      n := 0;
      assert q[..0] == [] && Join([]) == [];
      while |rcv_queue| > 0
        invariant 0 <= i <= e <= |q| && rcv_queue == q[i..]
        invariant i + MessageEnd(rcv_queue) == e
        invariant n == |Join(q[..i])| <= buf.Length && buf[..] == Join(q[..i]) + bytes[n..]
        decreases |rcv_queue|
      {
        JoinPrefix(q, i + 1, e);
        assert q[i..][1..] == q[i + 1..];
        var seg := TakeSegment(buf, n, q, i, bytes);
        n := n + |seg.data|;
        i := i + 1;
        if seg.frg == 0 {
          break;
        }
      }
    }

    // Stream mode: fill up the last queued segment; what is left of the message.
    method FillLastSegment(msg: Payload, mss: nat) returns (rest: Payload)
      requires mss < U32 && |msg| > 0
      modifies this`snd_queue
      ensures snd_queue == FillLast(old(snd_queue), msg, mss)
      ensures rest == msg[Room(old(snd_queue), |msg|, mss)..]
    {
      rest := msg;
      var n := |snd_queue|;
      if n > 0 && |snd_queue[n - 1].data| < mss {
        var extend := Min(|rest|, mss - |snd_queue[n - 1].data|);
        snd_queue := snd_queue[n - 1 := snd_queue[n - 1].(data := snd_queue[n - 1].data + rest[..extend])];
        rest := rest[extend..];
      }
    }

    // Send.  Segments live in pooled buffers of MTU_LIMIT bytes.
    method Transmit(msg: Payload) returns (code: int)
      requires Valid() && Pooled(Send(View(), msg).0.snd.queue)
      modifies this`snd_queue
      ensures Valid()
      ensures (View(), code) == Send(old(View()), msg)
    {
      ghost var ep0 := View();
      SendKeeps(ep0, msg);
      var mss := cfg.mtu - OVERHEAD;
      if |msg| == 0 {
        return -1;
      }
      var rest := msg;
      if cfg.stream {
        rest := FillLastSegment(msg, mss);
        if |rest| == 0 {
          return 0;
        }
      }
      var count := if |rest| <= mss then 1 else (|rest| + mss - 1) / mss;
      if count > 255 {
        return -2;
      }
      QueueFragments(rest, mss, count);
      code := 0;
    }

    // Queue the pieces of a message one after the other.
    method QueuePieces(msg: Payload, mss: nat, count: nat, ghost all: seq<Segment>)
      requires mss > 0 && |all| == count <= 255 && PiecesFrom(cfg.stream, msg, mss, all, 0)
      modifies this`snd_queue
      ensures snd_queue == old(snd_queue) + all
    {
      var rest := msg;
      for i := 0 to count
        invariant snd_queue == old(snd_queue) + all[..i]
        invariant PiecesFrom(cfg.stream, rest, mss, all, i)
      {
        var size := Min(|rest|, mss);
        var frg := if cfg.stream then 0 else count - i - 1;
        CutNext(cfg.stream, rest, mss, all, i);
        assert (old(snd_queue) + all[..i]) + [all[i]] == old(snd_queue) + all[..i + 1];
        snd_queue := snd_queue + [NewSegment(frg, rest[..size])];
        rest := rest[size..];
      }
      assert all[..count] == all;
    }

    // The fragmentation loop.
    method QueueFragments(msg: Payload, mss: nat, count: nat)
      requires mss > 0 && count == Count(|msg|, mss) <= 255
      modifies this`snd_queue
      ensures snd_queue == old(snd_queue) + (if cfg.stream then Chunks(msg, mss) else Fragments(msg, mss))
    {
      CutCount(msg, mss);
      ghost var all := CutUp(cfg.stream, msg, mss);
      assert all[0..] == all;
      QueuePieces(msg, mss, count, all);
    }

    // ---- flush ----------------------------------------------------------------

    method FlushAcks(o: OutBuffer)
      requires cfg.Valid() && o.Valid() && o.mtu == cfg.mtu && o.data == buffer && o.View() == EmptyPacker
      modifies this`acklist, o, buffer
      ensures o.Valid() && acklist == []
      ensures o.View() == PackAcks(old(View()), |old(acklist)|)
    {
      ghost var ep := View();
      var wnd := if |rcv_queue| < cfg.rcv_wnd then (cfg.rcv_wnd - |rcv_queue|) % 0x1_0000 else 0;
      for i := 0 to |acklist|
        invariant o.Valid() && ep == View() && o.View() == PackAcks(ep, i)
      {
        var ack := acklist[i];
        if TimeDiff(ack.sn, rcv_nxt) >= 0 || i == |acklist| - 1 {
          o.Append(Wire(cfg.conv, CMD_ACK, 0, wnd, ack.ts, ack.sn, rcv_nxt, []));
        } else {
          // room is made even for an ack that is then filtered out
          o.MakeRoom(OVERHEAD);
        }
      }
      acklist := [];
    }

    // Move queued segments into the window while it has room.
    method SlideWindow(cwnd: u32) returns (n: nat)
      requires cfg.Valid() && SenderInv(cfg, Snd()) && cwnd <= MAX_WINDOW
      modifies this`snd_queue, this`snd_buf, this`snd_nxt
      ensures n == Slots(old(Snd()), cwnd) && Snd() == Slide(old(Snd()), n, cfg.conv)
    {
      n := 0;
      ghost var s := Snd();
      assert Slide(s, 0, cfg.conv) == s;
      while true
        invariant n <= Slots(s, cwnd) && Snd() == Slide(s, n, cfg.conv)
        decreases |snd_queue|
      {
        if TimeDiff(snd_nxt, Add32(snd_una, cwnd)) >= 0 {
          break;
        }
        if |snd_queue| == 0 {
          break;
        }
        var seg := snd_queue[0].(conv := cfg.conv, cmd := CMD_PUSH, sn := snd_nxt);
        SlideStep(s, n, cfg.conv);
        snd_queue := snd_queue[1..];
        snd_buf := snd_buf + [seg];
        snd_nxt := Add32(snd_nxt, 1);
        n := n + 1;
      }
    }

    // Whether and why a segment goes out now, and its timers if it does.
    method Prepare(seg: Segment, env: TxEnv, current: u32) returns (kind: Kind, seg1: Segment)
      ensures kind == Decide(seg, env, current) && seg1 == Rearmed(seg, kind, env, current)
    {
      kind, seg1 := Hold, seg;
      if seg.xmit == 0 {
        kind := First;
        seg1 := seg1.(rto := env.rto, resendts := Add32(current, env.rto));
      } else if seg.fastack >= env.resent && seg.fastack != MAX32 {
        kind := Fast;
        seg1 := seg1.(fastack := MAX32, rto := env.rto, resendts := Add32(current, env.rto));
      } else if seg.fastack > 0 && seg.fastack != MAX32 && env.noNew {
        kind := Early;
        seg1 := seg1.(fastack := MAX32, rto := env.rto, resendts := Add32(current, env.rto));
      } else if TimeDiff(current, seg.resendts) >= 0 {
        kind := Lost;
        seg1 := seg1.(rto := Add32(seg.rto, if env.cfg.nodelay then env.rto / 2 else env.rto));
        seg1 := seg1.(fastack := 0, resendts := Add32(current, seg1.rto));
      }
    }

    // Put a segment that is due on the wire.
    method SendNow(o: OutBuffer, seg0: Segment, kind: Kind, env: TxEnv, now: nat -> u32, r: Tally,
                   ghost es: seq<Wire>, ghost p: Packer)
        returns (seg1: Segment, r1: Tally)
      requires cfg.Valid() && |seg0.data| <= cfg.Mss() && r.sent == |es|
      requires o.Valid() && o.mtu == cfg.mtu && o.View() == PutFrom(p, es, cfg.mtu)
      modifies o, o.data
      ensures var current := now(|es| + 1);
              && seg1 == seg0.(xmit := Add32(seg0.xmit, 1), ts := current, wnd := env.wnd, una := env.una)
              && r1 == Tally(current, |es| + 1, r.change || kind == Fast || kind == Early, r.lost || kind == Lost,
                             r.dead || seg1.xmit >= cfg.dead_link, r.next)
      ensures o.Valid() && o.View() == PutFrom(p, es + [ToWire(seg1)], cfg.mtu)
    {
      var current := now(r.sent + 1);
      seg1 := seg0.(xmit := Add32(seg0.xmit, 1), ts := current, wnd := env.wnd, una := env.una);
      PutFromStep(p, es, ToWire(seg1), cfg.mtu);
      o.Append(ToWire(seg1));
      r1 := Tally(current, r.sent + 1, r.change || kind == Fast || kind == Early, r.lost || kind == Lost,
                  r.dead || seg1.xmit >= cfg.dead_link, r.next);
    }

    // One entry of the window: transmitted if due.
    method SendIfDue(o: OutBuffer, seg: Segment, env: TxEnv, now: nat -> u32, r: Tally, ghost t: Tx, ghost p: Packer)
        returns (seg1: Segment, r1: Tally)
      requires cfg.Valid() && env.cfg == cfg && |seg.data| <= cfg.Mss() && Tallied(r, t)
      requires o.Valid() && o.mtu == cfg.mtu && o.View() == PutFrom(p, t.emits, cfg.mtu)
      modifies o, o.data
      ensures var t1 := TxStep(t, seg, env, now);
              && t1.done == t.done + [seg1] && Tallied(r1, t1)
              && o.Valid() && o.View() == PutFrom(p, t1.emits, cfg.mtu)
    {
      seg1, r1 := seg, r;
      if seg.acked {
        return;
      }
      var kind;
      kind, seg1 := Prepare(seg, env, r.current);
      if kind != Hold {
        seg1, r1 := SendNow(o, seg1, kind, env, now, r, t.emits, p);
      }
      r1 := r1.(next := Nearest(seg1.resendts, r1.current, r1.next));
    }

    // The transmission pass over the window.
    method TransmitDue(o: OutBuffer, env: TxEnv, now: nat -> u32) returns (r: Tally)
      requires cfg.Valid() && env.cfg == cfg && SenderInv(cfg, Snd())
      requires o.Valid() && o.mtu == cfg.mtu && o.data == buffer
      modifies this`snd_buf, o, buffer
      ensures var t := TxAll(old(snd_buf), env, now);
              && snd_buf == t.done && Tallied(r, t)
              && o.Valid() && o.View() == PutFrom(old(o.View()), t.emits, cfg.mtu)
    {
      ghost var buf0, p := snd_buf, o.View();
      r := Tally(now(0), 0, false, false, false, cfg.interval);
      ghost var t := TxAll(buf0[..0], env, now);
      for i := 0 to |snd_buf|
        invariant |snd_buf| == |buf0| && t == TxAll(buf0[..i], env, now) && snd_buf == t.done + buf0[i..]
        invariant Tallied(r, t)
        invariant o.Valid() && o.View() == PutFrom(p, t.emits, cfg.mtu)
      {
        assert Entry(cfg, buf0[i], Add32(snd_una, i));
        var seg;
        seg, r := SendIfDue(o, snd_buf[i], env, now, r, t, p);
        DoneStep(t.done, buf0, i, seg);
        snd_buf := snd_buf[i := seg];
        assert buf0[..i + 1][..i] == buf0[..i];
        t := TxAll(buf0[..i + 1], env, now);
      }
      assert buf0[..|buf0|] == buf0;
    }

    // Decide about probing the peer's window.
    method ProbeWindow(probeNow: u32)
      modifies this`ctl
      ensures ctl == Probe(old(ctl), probeNow)
    {
      if ctl.rmt_wnd == 0 {
        if ctl.probe_wait == 0 {
          ctl := ctl.(probe_wait := PROBE_INIT, ts_probe := Add32(probeNow, PROBE_INIT));
        } else if TimeDiff(probeNow, ctl.ts_probe) >= 0 {
          if ctl.probe_wait < PROBE_INIT {
            ctl := ctl.(probe_wait := PROBE_INIT);
          }
          ctl := ctl.(probe_wait := Add32(ctl.probe_wait, ctl.probe_wait / 2));
          if ctl.probe_wait > PROBE_LIMIT {
            ctl := ctl.(probe_wait := PROBE_LIMIT);
          }
          ctl := ctl.(ts_probe := Add32(probeNow, ctl.probe_wait), askSend := true);
        }
      } else {
        ctl := ctl.(ts_probe := 0, probe_wait := 0);
      }
    }

    // One window probe; the header still carries the numbers of the last ack.
    method PutProbe(o: OutBuffer, cmd: u8, last: Ack, ghost ep: Endpoint)
      requires cfg.Valid() && o.Valid() && o.mtu == cfg.mtu && ep.cfg == cfg && LastAck(ep) == last
      requires Unused(ep.rcv, cfg.rcv_wnd) == Unused(Rcv(), cfg.rcv_wnd) && ep.rcv.nxt == rcv_nxt
      modifies o, o.data
      ensures o.Valid() && o.View() == Put(old(o.View()), ProbeWire(ep, cmd), cfg.mtu)
    {
      var wnd := if |rcv_queue| < cfg.rcv_wnd then (cfg.rcv_wnd - |rcv_queue|) % 0x1_0000 else 0;
      o.Append(Wire(cfg.conv, cmd, 0, wnd, last.ts, last.sn, rcv_nxt, []));
    }

    method FlushProbes(o: OutBuffer, last: Ack, ghost ep: Endpoint)
      requires cfg.Valid() && o.Valid() && o.mtu == cfg.mtu && ep.cfg == cfg && LastAck(ep) == last
      requires Unused(ep.rcv, cfg.rcv_wnd) == Unused(Rcv(), cfg.rcv_wnd) && ep.rcv.nxt == rcv_nxt
      modifies o, o.data
      ensures o.Valid() && o.View() == PutFrom(old(o.View()), ProbeWires(ep, ctl), cfg.mtu)
    {
      ProbesInTurn(o.View(), ep, ctl);
      if ctl.askSend {
        PutProbe(o, CMD_WASK, last, ep);
      }
      if ctl.askTell {
        PutProbe(o, CMD_WINS, last, ep);
      }
    }

    // Rate halving after a fast retransmission, restart after a timeout.
    method AdjustWindow(cwnd: u32, resent: u32, change: bool, lost: bool)
      requires cfg.Valid() && !cfg.nocwnd
      modifies this`ctl
      ensures ctl == AfterFlush(old(ctl), cfg.Mss(), cwnd, Sub32(snd_nxt, snd_una), resent, change, lost)
    {
      var mss := cfg.mtu - OVERHEAD;
      if change {
        var inflight := Sub32(snd_nxt, snd_una);
        ctl := ctl.(ssthresh := Max(inflight / 2, THRESH_MIN));
        ctl := ctl.(cwnd := Add32(ctl.ssthresh, resent));
        ctl := ctl.(incr := Mul32(ctl.cwnd, mss));
      }
      if lost {
        ctl := ctl.(ssthresh := Max(cwnd / 2, THRESH_MIN), cwnd := 1, incr := mss);
      }
      if ctl.cwnd < 1 {
        ctl := ctl.(cwnd := 1, incr := mss);
      }
    }

    // The window slides and, in a full flush, due segments go out.
    method FlushData(o: OutBuffer, full: bool, now: nat -> u32, cwnd: u32, resent: u32, ghost ep: Endpoint,
                     ghost c: Control)
        returns (r: Tally)
      requires cfg.Valid() && ep.cfg == cfg && SenderInv(cfg, Snd()) && ep.snd == Snd() && c.rmt_wnd <= MAX_WINDOW
      requires cwnd == EffectiveWindow(cfg, c) && resent == Resent(cfg) && ctl.rto == c.rto
      requires Unused(ep.rcv, cfg.rcv_wnd) == Unused(Rcv(), cfg.rcv_wnd) && ep.rcv.nxt == rcv_nxt
      requires o.Valid() && o.mtu == cfg.mtu && o.data == buffer
      modifies this`snd_queue, this`snd_buf, this`snd_nxt, o, buffer
      ensures var t := Pass(ep, full, c, now);
              && Snd() == Slid(ep, c).(buf := t.done) && Tallied(r, t)
              && o.Valid() && o.View() == PutFrom(old(o.View()), t.emits, cfg.mtu)
    {
      var n := SlideWindow(cwnd);
      assert Snd() == Slid(ep, c);
      if full {
        SlideKeeps(cfg, ep.snd, cwnd);
        var wnd := if |rcv_queue| < cfg.rcv_wnd then (cfg.rcv_wnd - |rcv_queue|) % 0x1_0000 else 0;
        var env := TxEnv(cfg, ctl.rto, resent, n == 0, wnd, rcv_nxt);
        assert env == PassEnv(ep, c);
        r := TransmitDue(o, env, now);
      } else {
        r := Tally(now(0), 0, false, false, false, cfg.interval);
      }
    }

    // Window and link state after the transmission pass.
    method FlushState(r: Tally, cwnd: u32, resent: u32, ghost ep: Endpoint, ghost c: Control, ghost t: Tx)
      requires cfg.Valid() && ep.cfg == cfg && Tallied(r, t)
      requires ctl == c.(askSend := false, askTell := false)
      requires cwnd == EffectiveWindow(cfg, c) && resent == Resent(cfg)
      requires snd_nxt == Slid(ep, c).nxt && snd_una == Slid(ep, c).una
      modifies this`ctl
      ensures ctl == PassControl(ep, c, t)
    {
      if r.dead {
        ctl := ctl.(state := MAX32);
      }
      if !cfg.nocwnd {
        AdjustWindow(cwnd, resent, r.change, r.lost);
      }
    }

    // Acks and probes.
    method FlushControl(o: OutBuffer, probeNow: u32)
      requires cfg.Valid() && o.Valid() && o.mtu == cfg.mtu && o.data == buffer && o.View() == EmptyPacker
      modifies this`acklist, this`ctl, o, buffer
      ensures acklist == [] && ctl == Probe(old(ctl), probeNow).(askSend := false, askTell := false)
      ensures o.Valid()
      ensures var ep := old(View());
              o.View() == PutFrom(PackAcks(ep, |ep.rcv.acks|), ProbeWires(ep, Probe(ep.ctl, probeNow)), cfg.mtu)
    {
      ghost var ep := View();
      var last := if |acklist| > 0 then acklist[|acklist| - 1] else Ack(0, 0);
      FlushAcks(o);
      ProbeWindow(probeNow);
      FlushProbes(o, last, ep);
      ctl := ctl.(askSend := false, askTell := false);
    }

    // The rest of a flush: the data and what follows from it.
    method FlushRest(o: OutBuffer, full: bool, now: nat -> u32, ghost ep: Endpoint, ghost c: Control, ghost t: Tx)
        returns (next: u32)
      requires cfg.Valid() && ep.cfg == cfg && SenderInv(cfg, Snd()) && ep.snd == Snd() && c.rmt_wnd <= MAX_WINDOW
      requires ctl == c.(askSend := false, askTell := false) && t == Pass(ep, full, c, now)
      requires Unused(ep.rcv, cfg.rcv_wnd) == Unused(Rcv(), cfg.rcv_wnd) && ep.rcv.nxt == rcv_nxt
      requires o.Valid() && o.mtu == cfg.mtu && o.data == buffer
      modifies this`snd_queue, this`snd_buf, this`snd_nxt, this`ctl, o, buffer
      ensures Snd() == Slid(ep, c).(buf := t.done) && ctl == PassControl(ep, c, t) && next == t.next
      ensures o.Valid() && o.View() == PutFrom(old(o.View()), t.emits, cfg.mtu)
    {
      var cwnd: u32 := Min(cfg.snd_wnd, ctl.rmt_wnd);
      if !cfg.nocwnd {
        cwnd := Min(ctl.cwnd, cwnd);
      }
      var resent := if cfg.fastresend == 0 then MAX32 else cfg.fastresend;
      var r := FlushData(o, full, now, cwnd, resent, ep, c);
      FlushState(r, cwnd, resent, ep, c, t);
      next := r.next;
    }

    method FlushParts(full: bool, probeNow: u32, now: nat -> u32) returns (out: seq<Bytes>, next: u32)
      requires cfg.Valid() && SenderInv(cfg, Snd()) && ctl.rmt_wnd <= MAX_WINDOW && buffer.Length >= cfg.mtu
      modifies this`snd_queue, this`snd_buf, this`snd_nxt, this`acklist, this`ctl, buffer
      ensures View() == Flush(old(View()), full, probeNow, now).ep
      ensures next == Pass(old(View()), full, Probe(old(ctl), probeNow), now).next
      ensures var ep := old(View());
              out == Finish(PutFrom(PutFrom(PackAcks(ep, |ep.rcv.acks|), ProbeWires(ep, Probe(ep.ctl, probeNow)),
                                            cfg.mtu),
                                    Pass(ep, full, Probe(ep.ctl, probeNow), now).emits, cfg.mtu))
    {
      ghost var ep, c := View(), Probe(ctl, probeNow);
      ghost var t := Pass(ep, full, c, now);
      var o := new OutBuffer(buffer, cfg.mtu);
      FlushControl(o, probeNow);
      next := FlushRest(o, full, now, ep, c, t);
      o.Flush();
      out := o.out;
    }

    // flush: the datagrams handed to the output callback and the time to the next update.
    method FlushOut(full: bool, probeNow: u32, now: nat -> u32) returns (out: seq<Bytes>, next: u32)
      requires Valid()
      modifies this`snd_queue, this`snd_buf, this`snd_nxt, this`acklist, this`ctl, buffer
      ensures Valid()
      ensures var f := Flush(old(View()), full, probeNow, now);
              View() == f.ep && next == f.next && out == Pack(f.emits, cfg.mtu)
    {
      FlushKeeps(View(), full, probeNow, now);
      FlushPacked(View(), full, probeNow, now);
      out, next := FlushParts(full, probeNow, now);
    }

    // ---- Input ----------------------------------------------------------------

    method UpdateAck(rtt: nat)
      modifies this`ctl
      ensures ctl == UpdateRtt(old(ctl), cfg, rtt)
    {
      if ctl.srtt == 0 {
        ctl := ctl.(srtt := rtt, rttvar := rtt / 2);
      } else {
        var delta := rtt - ctl.srtt;
        ctl := ctl.(srtt := ctl.srtt + delta / 8);
        if delta < 0 {
          delta := -delta;
        }
        if rtt < ctl.srtt - ctl.rttvar {
          ctl := ctl.(rttvar := ctl.rttvar + (delta - ctl.rttvar) / 32);
        } else {
          ctl := ctl.(rttvar := ctl.rttvar + (delta - ctl.rttvar) / 4);
        }
      }
      ctl := ctl.(rto := Bound(cfg.minrto, Timeout(ctl.srtt, ctl.rttvar, cfg.interval), RTO_MAX));
    }

    method GrowCwnd()
      requires cfg.Valid()
      modifies this`ctl
      ensures ctl == GrowWindow(old(ctl), cfg.Mss())
    {
      var mss := cfg.mtu - OVERHEAD;
      if ctl.cwnd < ctl.rmt_wnd {
        if ctl.cwnd < ctl.ssthresh {
          ctl := ctl.(cwnd := ctl.cwnd + 1, incr := Add32(ctl.incr, mss));
        } else {
          if ctl.incr < mss {
            ctl := ctl.(incr := mss);
          }
          ctl := ctl.(incr := Add32(ctl.incr, Add32(Div32(Mul32(mss, mss), ctl.incr), mss / 16)));
          if Mul32(ctl.cwnd + 1, mss) <= ctl.incr {
            ctl := ctl.(cwnd := Div32(Add32(ctl.incr, mss - 1), mss));
          }
        }
        if ctl.cwnd > ctl.rmt_wnd {
          ctl := ctl.(cwnd := ctl.rmt_wnd, incr := Mul32(ctl.rmt_wnd, mss));
        }
      }
    }

    // The sending side takes in both acknowledgements of a segment.
    method TakeAcks(w: Wire) returns (urgent: bool)
      requires cfg.Valid() && SenderInv(cfg, Snd())
      modifies this`snd_buf, this`snd_una
      ensures Snd() == TakeAck(old(Snd()), w)
      ensures urgent <==> UnaCount(old(snd_buf), w.una) > 0 ||
                          (w.cmd == CMD_ACK &&
                           SkipsDue(MarkAcked(DropAcked(old(Snd()), w.una), w.sn), w.sn, w.ts, cfg.fastresend))
    {
      DropAckedKeeps(cfg, Snd(), w.una);
      MarkAckedKeeps(cfg, DropAcked(Snd(), w.una), w.sn);
      var count := ParseUna(w.una);
      ShrinkBuf();
      urgent := count > 0;
      if w.cmd == CMD_ACK {
        ParseAck(w.sn);
        var due := ParseFastack(w.sn, w.ts);
        urgent := urgent || due;
      }
    }

    method TakeData(w: Wire)
      requires 0 < cfg.rcv_wnd <= HALF && rcv_buf.Valid(rcv_nxt)
      modifies this`rcv_queue, this`rcv_nxt, this`acklist, rcv_buf
      ensures rcv_buf.Valid(rcv_nxt) && Rcv() == TakePush(old(Rcv()), cfg.rcv_wnd, w)
    {
      if TimeDiff(w.sn, Add32(rcv_nxt, cfg.rcv_wnd)) < 0 {
        acklist := acklist + [Ack(w.sn, w.ts)];
        if TimeDiff(w.sn, rcv_nxt) >= 0 {
          var repeated := ParseDataSegment(FromWire(w));
        }
      }
    }

    method InputParts(w: Wire, regular: bool) returns (urgent: bool)
      requires cfg.Valid() && SenderInv(cfg, Snd()) && rcv_buf.Valid(rcv_nxt)
      modifies this`snd_buf, this`snd_una, this`rcv_queue, this`rcv_nxt, this`acklist, this`ctl, rcv_buf
      ensures rcv_buf.Valid(rcv_nxt)
      ensures View() == InputSegment(old(View()), w, regular) && urgent == Urgent(old(View()), w)
    {
      if regular {
        ctl := ctl.(rmt_wnd := w.wnd);
      }
      urgent := TakeAcks(w);
      if w.cmd == CMD_PUSH {
        TakeData(w);
      } else if w.cmd == CMD_WASK {
        ctl := ctl.(askTell := true);
      }
    }

    // One segment of a datagram.
    method InputOne(w: Wire, regular: bool) returns (urgent: bool)
      requires Valid()
      modifies this`snd_buf, this`snd_una, this`rcv_queue, this`rcv_nxt, this`acklist, this`ctl, rcv_buf
      ensures Valid() && View() == InputSegment(old(View()), w, regular) && urgent == Urgent(old(View()), w)
    {
      InputSegmentKeeps(View(), w, regular);
      urgent := InputParts(w, regular);
    }

    // One header and its payload.
    method ParseSegment(data: Bytes) returns (code: int, w: Wire, rest: Bytes)
      requires |data| >= OVERHEAD
      ensures code == 0 ==> ParseOne(cfg.conv, data) == Got(w, rest)
      ensures code != 0 ==> ParseOne(cfg.conv, data) == Bad(code)
    {
      w, rest := Wire(0, 0, 0, 0, 0, 0, 0, []), data;
      if FromLe32(data, 0) != cfg.conv {
        return -1, w, rest;
      }
      var length := FromLe32(data, 20);
      if |data| - OVERHEAD < length {
        return -2, w, rest;
      }
      if !KnownCmd(data[4]) {
        return -3, w, rest;
      }
      code := 0;
      w := Wire(cfg.conv, data[4], data[5], FromLe16(data, 6), FromLe32(data, 8), FromLe32(data, 12),
                FromLe32(data, 16), data[OVERHEAD..OVERHEAD + length]);
      rest := data[OVERHEAD + length..];
    }

    // The segment w, with the segments rest behind it.
    method InputNext(w: Wire, regular: bool, urgent: bool, anyAck: bool, latest: u32,
                     ghost ep: Endpoint, ghost ws: seq<Wire>, ghost rest: seq<Wire>, ghost acks: seq<u32>)
      returns (urgent1: bool, anyAck1: bool, latest1: u32, ghost acks1: seq<u32>)
      requires Valid() && Latest(anyAck, latest, acks) && Progress(ep, ws, regular, View(), [w] + rest, urgent, acks)
      modifies this`snd_buf, this`snd_una, this`rcv_queue, this`rcv_nxt, this`acklist, this`ctl, rcv_buf
      ensures Valid() && Latest(anyAck1, latest1, acks1) && Progress(ep, ws, regular, View(), rest, urgent1, acks1)
    {
      ProgressStep(ep, ws, regular, View(), w, rest, urgent, acks);
      var now := InputOne(w, regular);
      urgent1, anyAck1, latest1, acks1 := urgent || now, anyAck, latest, acks;
      if w.cmd == CMD_ACK {
        anyAck1, latest1, acks1 := true, w.ts, acks + [w.ts];
      }
    }

    // The parsing loop.
    method InputSegments(data0: Bytes, regular: bool) returns (code: int, urgent: bool, anyAck: bool, latest: u32)
      requires Valid()
      modifies this`snd_buf, this`snd_una, this`rcv_queue, this`rcv_nxt, this`acklist, this`ctl, rcv_buf
      ensures Valid()
      ensures var (ws, c) := Decode(cfg.conv, data0);
              && code == c && View() == InputAll(old(View()), ws, regular)
              && (code == 0 ==> urgent == AnyUrgent(old(View()), ws, regular) && Latest(anyAck, latest, AckTimes(ws)))
    {
      var data := data0;
      urgent, anyAck, latest := false, false, 0;
      ghost var ep, all, acks: seq<u32> := View(), Decode(cfg.conv, data0), [];
      while |data| >= OVERHEAD
        invariant Valid() && Decode(cfg.conv, data).1 == all.1
        invariant Progress(ep, all.0, regular, View(), Decode(cfg.conv, data).0, urgent, acks)
        invariant Latest(anyAck, latest, acks)
        decreases |data|
      {
        var w, rest;
        code, w, rest := ParseSegment(data);
        if code != 0 {
          return;
        }
        DecodeStep(cfg.conv, data, w, rest);
        urgent, anyAck, latest, acks :=
          InputNext(w, regular, urgent, anyAck, latest, ep, all.0, Decode(cfg.conv, rest).0, acks);
        data := rest;
      }
      code := 0;
    }

    // The end of Input: round-trip sample, window growth.
    method SettleInput(before: u32, regular: bool, anyAck: bool, latest: u32, rttNow: u32, ghost acks: seq<u32>)
      requires Valid() && Latest(anyAck, latest, acks)
      modifies this`ctl
      ensures Valid() && View() == Settle(old(View()), before, acks, regular, rttNow)
    {
      SettleKeeps(View(), before, acks, regular, rttNow);
      if anyAck && regular && TimeDiff(rttNow, latest) >= 0 {
        UpdateAck(TimeDiff(rttNow, latest));
      }
      if !cfg.nocwnd && TimeDiff(snd_una, before) > 0 {
        GrowCwnd();
      }
    }

    // The response to a datagram.
    method RespondOut(urgent: bool, ackNoDelay: bool, clock: Clock) returns (out: seq<Bytes>)
      requires Valid()
      modifies this`snd_queue, this`snd_buf, this`snd_nxt, this`acklist, this`ctl, buffer
      ensures Valid()
      ensures var (ep, emits) := Respond(old(View()), urgent, ackNoDelay, clock);
              View() == ep && out == Pack(emits, cfg.mtu)
    {
      var next;
      if urgent {
        out, next := FlushOut(true, clock.probe, clock.now);
      } else if |acklist| >= cfg.mtu / OVERHEAD {
        out, next := FlushOut(false, clock.probe, clock.now);
      } else if ackNoDelay && |acklist| > 0 {
        out, next := FlushOut(false, clock.probe, clock.now);
      } else {
        out := [];
        PackNothing(cfg.mtu);
      }
    }

    // Input a datagram; out is what is sent in response.
    method InputBytes(data: Bytes, regular: bool, ackNoDelay: bool, clock: Clock) returns (code: int, out: seq<Bytes>)
      requires Valid() && CopiesFit(View(), Decode(cfg.conv, data).0, regular)
      modifies this, rcv_buf, buffer
      ensures Valid()
      ensures var (ep, c, emits) := Input(old(View()), data, regular, ackNoDelay, clock);
              View() == ep && code == c && out == Pack(emits, cfg.mtu)
    {
      PackNothing(cfg.mtu);
      InputByParts(View(), data, regular, ackNoDelay, clock);
      out := [];
      if |data| < OVERHEAD {
        return -1, [];
      }
      var before := snd_una;
      var urgent, anyAck, latest;
      code, urgent, anyAck, latest := InputSegments(data, regular);
      if code != 0 {
        return;
      }
      SettleInput(before, regular, anyAck, latest, clock.rtt, AckTimes(Decode(cfg.conv, data).0));
      out := RespondOut(urgent, ackNoDelay, clock);
    }
  }

  lemma {:induction false} EmptyStore(s: seq<Segment>, store: map<u32, Segment>)
    requires Holds(s, store) && s == []
    ensures store == map[]
  {
    var pos :| HoldsAt(s, store, pos);
    if sn :| sn in store { assert false; }
  }

  method CopyInto(buf: array<u8>, at: nat, d: Bytes)
    requires at + |d| <= buf.Length
    modifies buf
    ensures buf[..] == old(buf[..at]) + d + old(buf[at + |d|..])
  {
    for i := 0 to |d|
      invariant buf[..at] == old(buf[..at]) && buf[at..at + i] == d[..i] && buf[at + i..] == old(buf[at + i..])
    {
      ghost var b := buf[..];
      buf[at + i] := d[i];
      assert buf[..] == b[at + i := d[i]];
      assert d[..i + 1] == d[..i] + [d[i]];
    }
    assert buf[..] == buf[..at] + buf[at..at + |d|] + buf[at + |d|..];
  }

  lemma {:induction false} Splice(done: Bytes, bytes: Bytes, d: Bytes, b: Bytes)
    requires |done| + |d| <= |bytes| && b == done + bytes[|done|..]
    ensures b[..|done|] + d + b[|done| + |d|..] == done + d + bytes[|done| + |d|..]
  {
  }

  // An entry passed over is due for a retransmission.
  predicate SkipDue(seg: Segment, ts: u32, fastresend: u32) {
    Skipped(seg, ts) != seg && seg.fastack + 1 >= fastresend
  }

  // The entry at k has the number sn; those after it have later ones.
  predicate SortedAround(buf: seq<Segment>, sn: u32, k: nat) {
    forall i :: 0 <= i < |buf| ==> (TimeDiff(sn, buf[i].sn) < 0 <==> i > k) && (sn == buf[i].sn <==> i == k)
  }

  lemma {:induction false} OrderedAround(cfg: Config, s: Sender, sn: u32)
    requires cfg.Valid() && SenderInv(cfg, s) && TimeDiff(sn, s.una) >= 0 && TimeDiff(sn, s.nxt) < 0
    ensures TimeDiff(sn, s.una) < |s.buf| && SortedAround(s.buf, sn, TimeDiff(sn, s.una))
  {
    var k := TimeDiff(sn, s.una);
    forall i | 0 <= i < |s.buf| ensures (TimeDiff(sn, s.buf[i].sn) < 0 <==> i > k) && (sn == s.buf[i].sn <==> i == k) {
      assert Entry(cfg, s.buf[i], Add32(s.una, i));
    }
  }

  // Fragments of a message or, in stream mode, chunks of a byte stream.
  function CutUp(stream: bool, msg: Payload, mss: nat): (f: seq<Segment>)
    requires mss > 0
    ensures |f| > 0
  {
    if stream then Chunks(msg, mss) else Fragments(msg, mss)
  }

  lemma {:induction false} ChunksLikeFragments(msg: Payload, mss: nat)
    requires mss > 0
    ensures |Chunks(msg, mss)| == |Fragments(msg, mss)|
    decreases |msg|
  {
    if |msg| > mss { ChunksLikeFragments(msg[mss..], mss); }
  }

  lemma {:induction false} CutCount(msg: Payload, mss: nat)
    requires mss > 0
    ensures |CutUp(false, msg, mss)| == |CutUp(true, msg, mss)| == Count(|msg|, mss)
  {
    KcpFlow.FragmentCount(msg, mss);
    ChunksLikeFragments(msg, mss);
  }

  // rest is cut into what is left of all from i on.
  ghost predicate PiecesFrom(stream: bool, rest: Payload, mss: nat, all: seq<Segment>, i: nat)
    requires mss > 0
  {
    i < |all| ==> CutUp(stream, rest, mss) == all[i..]
  }

  lemma {:induction false} CutNext(stream: bool, rest: Payload, mss: nat, all: seq<Segment>, i: nat)
    requires mss > 0 && i < |all| <= 255 && PiecesFrom(stream, rest, mss, all, i)
    ensures var size := Min(|rest|, mss);
            && all[i] == NewSegment(if stream then 0 else |all| - i - 1, rest[..size])
            && all[..i + 1] == all[..i] + [all[i]]
            && PiecesFrom(stream, rest[size..], mss, all, i + 1)
  {
    CutStep(stream, rest, mss);
    var f := all[i..];
    assert f[0] == all[i] && f[1..] == all[i + 1..];
  }

  lemma {:induction false} CutStep(stream: bool, msg: Payload, mss: nat)
    requires mss > 0 && |CutUp(stream, msg, mss)| <= 255
    ensures var f, size := CutUp(stream, msg, mss), Min(|msg|, mss);
            && f[0] == NewSegment(if stream then 0 else |f| - 1, msg[..size])
            && (|f| == 1 ==> f == [f[0]])
            && (|f| > 1 ==> f == [f[0]] + CutUp(stream, msg[size..], mss))
  {
    ChunksLikeFragments(msg, mss);
  }

  // One more entry of the window is done.
  lemma {:induction false} DoneStep(done: seq<Segment>, buf: seq<Segment>, i: nat, x: Segment)
    requires |done| == i < |buf|
    ensures (done + buf[i..])[i] == buf[i]
    ensures (done + buf[i..])[i := x] == done + [x] + buf[i + 1..]
  {
  }

  lemma {:induction false} SlideStep(s: Sender, n: nat, conv: u32)
    requires n < |s.queue| && n + 1 < U32
    ensures var s1 := Slide(s, n, conv);
            Slide(s, n + 1, conv)
            == Sender(s1.queue[1..], s1.buf + [Numbered(s1.queue[0], conv, s1.nxt)], s.una, Add32(s1.nxt, 1))
  {
    var s1 := Slide(s, n, conv);
    assert s.queue[n..][1..] == s.queue[n + 1..];
    assert Slide(s, n + 1, conv).buf == s1.buf + [Numbered(s1.queue[0], conv, s1.nxt)];
  }

  lemma {:induction false} DecodeStep(conv: u32, data: Bytes, w: Wire, rest: Bytes)
    requires ParseOne(conv, data) == Got(w, rest)
    ensures Decode(conv, data) == ([w] + Decode(conv, rest).0, Decode(conv, rest).1)
  {
  }

  // Part of a datagram is done: cur is the state, rest is still to come.
  ghost predicate Progress(ep: Endpoint, ws: seq<Wire>, regular: bool, cur: Endpoint, rest: seq<Wire>, urgent: bool,
                           acks: seq<u32>) {
    && InputAll(cur, rest, regular) == InputAll(ep, ws, regular)
    && AnyUrgent(ep, ws, regular) == (urgent || AnyUrgent(cur, rest, regular))
    && AckTimes(ws) == acks + AckTimes(rest)
  }

  lemma {:induction false} ProgressStep(ep: Endpoint, ws: seq<Wire>, regular: bool, cur: Endpoint, w: Wire,
                                        rest: seq<Wire>,
                                        urgent: bool, acks: seq<u32>)
    requires Progress(ep, ws, regular, cur, [w] + rest, urgent, acks)
    ensures Progress(ep, ws, regular, InputSegment(cur, w, regular), rest, urgent || Urgent(cur, w),
                     if w.cmd == CMD_ACK then acks + [w.ts] else acks)
  {
    assert ([w] + rest)[1..] == rest;
    assert acks + [w.ts] + AckTimes(rest) == acks + ([w.ts] + AckTimes(rest));
    assert [] + AckTimes(rest) == AckTimes(rest);
  }

  lemma {:induction false} PackNothing(mtu: nat)
    ensures Pack([], mtu) == []
  {
  }

  lemma {:induction false} DecodeCode(conv: u32, data: Bytes)
    ensures Decode(conv, data).1 <= 0
    decreases |data|
  {
    match ParseOne(conv, data)
    case Done =>
    case Bad(_) =>
    case Got(_, rest) => DecodeCode(conv, rest);
  }

  lemma {:induction false} InputByParts(ep: Endpoint, data: Bytes, regular: bool, ackNoDelay: bool, clock: Clock)
    requires ep.cfg.Valid()
    ensures var (ws, code) := Decode(ep.cfg.conv, data);
            var ep1, r := InputAll(ep, ws, regular), Input(ep, data, regular, ackNoDelay, clock);
            && (|data| < OVERHEAD ==> r == (ep, -1, []))
            && (|data| >= OVERHEAD && code != 0 ==> r == (ep1, code, []))
            && (|data| >= OVERHEAD && code == 0 ==>
                  var (ep3, emits) := Respond(Settle(ep1, ep.snd.una, AckTimes(ws), regular, clock.rtt),
                                              AnyUrgent(ep, ws, regular), ackNoDelay, clock);
                  r == (ep3, 0, emits))
  {
    DecodeCode(ep.cfg.conv, data);
  }
}
