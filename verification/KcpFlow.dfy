/** One direction of data between two endpoints, in terms of the unbounded numbers
    behind the 32-bit words: `log` is everything the application handed to Send, cut
    into pieces; the i-th piece has number i.
 */
module KcpFlow {
  import opened Words
  import opened KcpWire
  import opened KcpSpec
  import opened KcpInvariant

  datatype Piece = Piece(frg: u8, data: Payload)

  function Content(s: Segment): Piece { Piece(s.frg, s.data) }

  function Contents(q: seq<Segment>): (c: seq<Piece>)
    ensures |c| == |q|
  {
    seq(|q|, i requires 0 <= i < |q| => Content(q[i]))
  }

  // The number that a word stands for, seen from a number at or below it.
  function Advance(i: nat, word: u32): nat {
    i + Sub32(word, Wrap(i))
  }

  lemma {:induction false} AdvanceTo(i: nat, j: nat)
    requires i <= j < i + U32
    ensures Advance(i, Wrap(j)) == j
  {
    WrapAdd(i, j - i);
  }

  // ---- the receiving end ------------------------------------------------------

  // Number i has arrived: it is out-of-order in the store, or queued, or was returned by Recv.
  predicate Arrived(r: Receiver, rnxt: nat, wnd: u32, i: nat) {
    i < rnxt || (i < rnxt + wnd && Wrap(i) in r.buf)
  }

  // What the receiver holds is what the log says, and was numbered by the sender (below limit).
  ghost predicate ReceiverFlow(r: Receiver, rnxt: nat, wnd: u32, log: seq<Piece>, limit: nat) {
    && r.nxt == Wrap(rnxt)
    && |r.queue| <= rnxt <= limit <= |log|
    && Contents(r.queue) == log[rnxt - |r.queue|..rnxt]
    && (forall i :: rnxt <= i < rnxt + wnd && Wrap(i) in r.buf ==> i < limit && Content(r.buf[Wrap(i)]) == log[i])
  }

  // One move from the store to the queue.
  lemma {:induction false} AdvanceFlow(r: Receiver, rnxt: nat, wnd: u32, log: seq<Piece>, limit: nat, r1: Receiver)
    requires 0 < wnd <= HALF && ReceiverFlow(r, rnxt, wnd, log, limit) && ReceiverInv(wnd, r) && r.nxt in r.buf
    requires r1 == Receiver(r.buf - {r.nxt}, r.queue + [r.buf[r.nxt]], Add32(r.nxt, 1), r.acks)
    ensures ReceiverFlow(r1, rnxt + 1, wnd, log, limit)
    ensures forall i :: Arrived(r, rnxt, wnd, i) ==> Arrived(r1, rnxt + 1, wnd, i)
  {
    WrapAdd(rnxt, 1);
    assert rnxt < limit && Content(r.buf[Wrap(rnxt)]) == log[rnxt];
    var lo := rnxt - |r.queue|;
    assert Contents(r1.queue) == Contents(r.queue) + [log[rnxt]] == log[lo..rnxt + 1];
    forall i | rnxt + 1 <= i < rnxt + 1 + wnd && Wrap(i) in r1.buf
      ensures i < limit && Content(r1.buf[Wrap(i)]) == log[i]
    {
      LastOutside(r, rnxt, wnd);
    }
    forall i: nat | Arrived(r, rnxt, wnd, i) ensures Arrived(r1, rnxt + 1, wnd, i) {
      if i > rnxt && Wrap(i) == Wrap(rnxt) { WrapInjective(i, rnxt); }
    }
  }

  // The number one past the window is never in the store.
  lemma {:induction false} LastOutside(r: Receiver, rnxt: nat, wnd: u32)
    requires 0 < wnd <= HALF && ReceiverInv(wnd, r) && r.nxt == Wrap(rnxt)
    ensures Wrap(rnxt + wnd) !in r.buf
  {
    WrapAdd(rnxt, wnd);
  }

  // r1 is r after j - rnxt moves from the store to the queue.
  ghost predicate Forwarded(r: Receiver, rnxt: nat, r1: Receiver, j: nat, wnd: u32) {
    && rnxt <= j && |r1.queue| == |r.queue| + (j - rnxt) && r1.acks == r.acks
    && (forall i :: Arrived(r, rnxt, wnd, i) ==> Arrived(r1, j, wnd, i))
  }

  lemma {:induction false} ForwardedOn(r: Receiver, i: nat, r1: Receiver, j: nat, r2: Receiver, k: nat, wnd: u32)
    requires Forwarded(r, i, r1, j, wnd) && Forwarded(r1, j, r2, k, wnd)
    ensures Forwarded(r, i, r2, k, wnd)
  {
  }

  lemma {:induction false} MoveReadyFlow(r: Receiver, rnxt: nat, wnd: u32, log: seq<Piece>, limit: nat) returns (j: nat)
    requires 0 < wnd <= HALF && ReceiverFlow(r, rnxt, wnd, log, limit) && ReceiverInv(wnd, r)
    ensures Forwarded(r, rnxt, MoveReady(r, wnd), j, wnd) && ReceiverFlow(MoveReady(r, wnd), j, wnd, log, limit)
    ensures r.nxt in r.buf && |r.queue| < wnd ==> j > rnxt
    decreases |r.buf|
  {
    if r.nxt in r.buf && |r.queue| < wnd {
      var r1 := Receiver(r.buf - {r.nxt}, r.queue + [r.buf[r.nxt]], Add32(r.nxt, 1), r.acks);
      AdvanceFlow(r, rnxt, wnd, log, limit, r1);
      AdvanceKeeps(r, wnd, r1);
      j := MoveReadyFlow(r1, rnxt + 1, wnd, log, limit);
      ForwardedOn(r, rnxt, r1, rnxt + 1, MoveReady(r1, wnd), j, wnd);
    } else {
      j := rnxt;
    }
  }

  // A push segment that carries the sn-th piece, no further back than half the word space.
  lemma {:induction false} TakePushFlow(r: Receiver, rnxt: nat, wnd: u32, log: seq<Piece>, limit: nat, w: Wire,
                                        sn: nat) returns (j: nat)
    requires 0 < wnd <= HALF && ReceiverFlow(r, rnxt, wnd, log, limit) && ReceiverInv(wnd, r)
    requires w.sn == Wrap(sn) && sn < limit && Piece(w.frg, w.data) == log[sn]
    requires -HALF <= sn - rnxt < HALF
    ensures var r1 := TakePush(r, wnd, w);
            && rnxt <= j && |r1.queue| == |r.queue| + (j - rnxt)
            && ReceiverFlow(r1, j, wnd, log, limit)
            && (forall i :: Arrived(r, rnxt, wnd, i) ==> Arrived(r1, j, wnd, i))
            && (InWindow(r, wnd, w.sn) ==> Arrived(r1, j, wnd, sn) && r1.acks == r.acks + [Ack(w.sn, w.ts)])
            && (!InWindow(r, wnd, w.sn) ==> r1 == r)
            && (sn == rnxt && |r.queue| < wnd ==> j > rnxt)
  {
    TimeDiffIsDistance(sn, rnxt);
    WindowExact(r, wnd, w.sn);
    if !InWindow(r, wnd, w.sn) || sn < rnxt {
      j := rnxt;
    } else {
      j := StorePush(r.(acks := r.acks + [Ack(w.sn, w.ts)]), rnxt, wnd, log, limit, FromWire(w), sn);
    }
  }

  lemma {:induction false} StorePush(r: Receiver, rnxt: nat, wnd: u32, log: seq<Piece>, limit: nat, seg: Segment,
                                     sn: nat)
    returns (j: nat)
    requires 0 < wnd <= HALF && ReceiverFlow(r, rnxt, wnd, log, limit) && ReceiverInv(wnd, r)
    requires seg.sn == Wrap(sn) && rnxt <= sn < rnxt + wnd && sn < limit && Content(seg) == log[sn]
    ensures var r1 := MoveReady(Store(r, seg), wnd);
            && rnxt <= j && |r1.queue| == |r.queue| + (j - rnxt)
            && ReceiverFlow(r1, j, wnd, log, limit) && r1.acks == r.acks
            && (forall i :: Arrived(r, rnxt, wnd, i) ==> Arrived(r1, j, wnd, i)) && Arrived(r1, j, wnd, sn)
            && (sn == rnxt && |r.queue| < wnd ==> j > rnxt)
  {
    StoreFlow(r, rnxt, wnd, log, limit, seg, sn);
    j := MoveReadyFlow(Store(r, seg), rnxt, wnd, log, limit);
  }

  lemma {:induction false} StoreFlow(r: Receiver, rnxt: nat, wnd: u32, log: seq<Piece>, limit: nat, seg: Segment,
                                     sn: nat)
    requires 0 < wnd <= HALF && ReceiverFlow(r, rnxt, wnd, log, limit) && ReceiverInv(wnd, r)
    requires seg.sn == Wrap(sn) && rnxt <= sn < rnxt + wnd && sn < limit && Content(seg) == log[sn]
    ensures ReceiverFlow(Store(r, seg), rnxt, wnd, log, limit) && ReceiverInv(wnd, Store(r, seg))
    ensures Arrived(Store(r, seg), rnxt, wnd, sn)
    ensures forall i :: Arrived(r, rnxt, wnd, i) ==> Arrived(Store(r, seg), rnxt, wnd, i)
  {
    var r1 := Store(r, seg);
    TimeDiffIsDistance(sn, rnxt);
    forall i | rnxt <= i < rnxt + wnd && Wrap(i) in r1.buf ensures i < limit && Content(r1.buf[Wrap(i)]) == log[i] {
      if Wrap(i) == Wrap(sn) { WrapInjective(i, sn); }
    }
  }

  // A log whose first piece differs from all others, one word space later.
  function LongLog(first: Piece, other: Piece): seq<Piece> {
    seq(U32 + 1, i requires 0 <= i <= U32 => if i == 0 then first else other)
  }

  // Why age must be bounded: a segment one whole word space old is taken for the next one.
  lemma {:induction false} StaleNumberAliases(first: Piece, other: Piece, ts: u32)
    requires first != other
    ensures var r, log := Receiver(map[], [], Wrap(U32), []), LongLog(first, other);
            var w := Wire(0, CMD_PUSH, first.frg, 0, ts, Wrap(0), 0, first.data);
            && ReceiverFlow(r, U32, 32, log, U32 + 1)
            && Piece(w.frg, w.data) == log[0]
            && Contents(TakePush(r, 32, w).queue) == [log[0]] != log[U32..U32 + 1]
  {
    var r, log := Receiver(map[], [], 0, []), LongLog(first, other);
    var w := Wire(0, CMD_PUSH, first.frg, 0, ts, 0, 0, first.data);
    var r1 := Receiver(map[0 := FromWire(w)], [], 0, [Ack(0, ts)]);
    assert Contents(r.queue) == log[U32..U32];
    assert Store(r.(acks := r.acks + [Ack(0, ts)]), FromWire(w)) == r1;
    var r2 := Receiver(r1.buf - {0}, [FromWire(w)], 1, r1.acks);
    assert MoveReady(r1, 32) == MoveReady(r2, 32) == r2 by { assert r1.queue + [r1.buf[0]] == [FromWire(w)]; }
    assert TakePush(r, 32, w).queue == [FromWire(w)];
    assert log[U32..U32 + 1][0] == other;
  }

  // ---- the sending end --------------------------------------------------------

  // The unacknowledged part of the window and the queue carry the log from una on.
  ghost predicate SenderFlow(s: Sender, una: nat, nxt: nat, log: seq<Piece>) {
    && s.una == Wrap(una) && s.nxt == Wrap(nxt)
    && nxt == una + |s.buf|
    && nxt + |s.queue| == |log|
    && Contents(s.queue) == log[nxt..]
    && (forall k :: 0 <= k < |s.buf| && !s.buf[k].acked ==> Content(s.buf[k]) == log[una + k])
  }

  // Entries that gave up their payload have arrived.
  ghost predicate Released(s: Sender, una: nat, arrived: iset<nat>) {
    forall k :: 0 <= k < |s.buf| && s.buf[k].acked ==> una + k in arrived
  }

  lemma {:induction false} ShrinkFlow(s: Sender, una: nat, nxt: nat, log: seq<Piece>, n: nat, arrived: iset<nat>)
    requires SenderFlow(s, una, nxt, log) && Released(s, una, arrived) && n <= |s.buf|
    ensures var s1 := s.(buf := s.buf[n..], una := Wrap(una + n));
            SenderFlow(s1, una + n, nxt, log) && Released(s1, una + n, arrived)
  {
    var b := s.buf[n..];
    assert forall k :: 0 <= k < |b| ==> b[k] == s.buf[n + k];
  }

  // A cumulative acknowledgement of number `to` moves una up to `to`, never down.
  lemma {:induction false} DropAckedFlow(cfg: Config, s: Sender, una: nat, nxt: nat, log: seq<Piece>, to: nat,
                                         arrived: iset<nat>)
    requires cfg.Valid() && SenderInv(cfg, s) && SenderFlow(s, una, nxt, log) && Released(s, una, arrived)
    requires to <= nxt && una - to <= HALF
    ensures SenderFlow(DropAcked(s, Wrap(to)), Max(una, to), nxt, log)
    ensures Released(DropAcked(s, Wrap(to)), Max(una, to), arrived)
  {
    var n := Max(una, to) - una;
    assert DropAcked(s, Wrap(to)) == s.(buf := s.buf[n..], una := Wrap(una + n)) by {
      TimeDiffIsDistance(to, una);
      DropAckedKeeps(cfg, s, Wrap(to));
      WrapAdd(una, n);
    }
    ShrinkFlow(s, una, nxt, log, n, arrived);
  }

  // A selective acknowledgement of number sn frees entry sn - una and no other.
  lemma {:induction false} MarkAckedFlow(s: Sender, una: nat, nxt: nat, log: seq<Piece>, sn: nat, arrived: iset<nat>)
    requires SenderFlow(s, una, nxt, log) && |s.buf| <= MAX_WINDOW && Released(s, una, arrived)
    requires sn < nxt && una - sn <= HALF + MAX_WINDOW && sn in arrived
    ensures SenderFlow(MarkAcked(s, Wrap(sn)), una, nxt, log)
    ensures Released(MarkAcked(s, Wrap(sn)), una, arrived)
  {
    var k := TimeDiff(Wrap(sn), Wrap(una));
    if 0 <= k < |s.buf| {
      WrapAdd(una, k);
      WrapInjective(sn, una + k);
    }
  }

  lemma {:induction false} CountSkipsFlow(s: Sender, una: nat, nxt: nat, log: seq<Piece>, sn: u32, ts: u32,
                                          arrived: iset<nat>)
    requires SenderFlow(s, una, nxt, log) && Released(s, una, arrived)
    ensures SenderFlow(CountSkips(s, sn, ts), una, nxt, log)
    ensures Released(CountSkips(s, sn, ts), una, arrived)
  {
  }

  // Both acknowledgements of an incoming segment: una moves up to `to`; entries freed are
  // only those already free and the one selectively acknowledged.
  lemma {:induction false} TakeAckFlow(cfg: Config, s: Sender, una: nat, nxt: nat, log: seq<Piece>, w: Wire, to: nat,
                                       sn: nat, arrived: iset<nat>)
    requires cfg.Valid() && SenderInv(cfg, s) && SenderFlow(s, una, nxt, log) && Released(s, una, arrived)
    requires w.una == Wrap(to) && to <= nxt <= to + HALF
    requires w.cmd == CMD_ACK ==> w.sn == Wrap(sn) && sn in arrived && sn < nxt <= sn + HALF + MAX_WINDOW
    ensures SenderFlow(TakeAck(s, w), Max(una, to), nxt, log)
    ensures Released(TakeAck(s, w), Max(una, to), arrived)
  {
    var una1 := Max(una, to);
    DropAckedFlow(cfg, s, una, nxt, log, to, arrived);
    DropAckedKeeps(cfg, s, w.una);
    if w.cmd == CMD_ACK {
      var s1 := DropAcked(s, w.una);
      MarkAckedFlow(s1, una1, nxt, log, sn, arrived);
      CountSkipsFlow(MarkAcked(s1, w.sn), una1, nxt, log, w.sn, w.ts, arrived);
    }
  }

  // n queued segments enter the window.
  lemma {:induction false} SlideFlow(cfg: Config, s: Sender, una: nat, nxt: nat, log: seq<Piece>, n: nat,
                                     arrived: iset<nat>)
    requires cfg.Valid() && SenderInv(cfg, s) && SenderFlow(s, una, nxt, log) && n <= |s.queue| && n < U32
    requires Released(s, una, arrived)
    ensures SenderFlow(Slide(s, n, cfg.conv), una, nxt + n, log)
    ensures Released(Slide(s, n, cfg.conv), una, arrived)
  {
    WrapAdd(nxt, n);
    var s1 := Slide(s, n, cfg.conv);
    assert Contents(s1.queue) == Contents(s.queue)[n..];
    forall k | 0 <= k < |s1.buf|
      ensures !s1.buf[k].acked ==> Content(s1.buf[k]) == log[una + k]
      ensures s1.buf[k].acked ==> una + k in arrived
    {
      if k >= |s.buf| {
        assert s.queue[k - |s.buf|] in s.queue;
        assert Content(s1.buf[k]) == Contents(s.queue)[k - |s.buf|];
      }
    }
  }

  lemma {:induction false} TxFlow(s: Sender, una: nat, nxt: nat, log: seq<Piece>, e: TxEnv, now: nat -> u32,
                                  arrived: iset<nat>)
    requires SenderFlow(s, una, nxt, log) && Released(s, una, arrived)
    ensures SenderFlow(s.(buf := TxAll(s.buf, e, now).done), una, nxt, log)
    ensures Released(s.(buf := TxAll(s.buf, e, now).done), una, arrived)
  {
    TxAllFaithful(s.buf, e, now);
    var t := TxAll(s.buf, e, now);
    forall k | 0 <= k < |s.buf| ensures t.done[k].acked == s.buf[k].acked && Content(t.done[k]) == Content(s.buf[k]) {
      assert SameEntry(s.buf[k], t.done[k]);
    }
  }

  // A flush: new entries, none of them free, and bookkeeping.
  lemma {:induction false} PassFlow(ep: Endpoint, una: nat, nxt: nat, log: seq<Piece>, full: bool, c: Control,
                                    now: nat -> u32, arrived: iset<nat>)
    requires ep.cfg.Valid() && SenderInv(ep.cfg, ep.snd) && SenderFlow(ep.snd, una, nxt, log)
    requires Released(ep.snd, una, arrived)
    ensures var s, n := Slid(ep, c).(buf := Pass(ep, full, c, now).done), Slots(ep.snd, EffectiveWindow(ep.cfg, c));
            SenderFlow(s, una, nxt + n, log) && Released(s, una, arrived)
  {
    var n := Slots(ep.snd, EffectiveWindow(ep.cfg, c));
    SlideFlow(ep.cfg, ep.snd, una, nxt, log, n, arrived);
    if full {
      TxFlow(Slid(ep, c), una, nxt + n, log, PassEnv(ep, c), now, arrived);
    }
  }

  // What the transmission pass puts on the wire: entry k with number una + k.
  lemma {:induction false} PassEmits(ep: Endpoint, una: nat, nxt: nat, log: seq<Piece>, full: bool, c: Control,
                                     now: nat -> u32, w: Wire, arrived: iset<nat>)
      returns (k: nat)
    requires ep.cfg.Valid() && SenderInv(ep.cfg, ep.snd) && SenderFlow(ep.snd, una, nxt, log) && c.rmt_wnd <= MAX_WINDOW
    requires w in Pass(ep, full, c, now).emits && Released(ep.snd, una, arrived)
    ensures una + k < nxt + Slots(ep.snd, EffectiveWindow(ep.cfg, c)) <= |log| && k < U32
    ensures w.cmd == CMD_PUSH && w.sn == Wrap(una + k) && w.una == ep.rcv.nxt && Piece(w.frg, w.data) == log[una + k]
  {
    var n := Slots(ep.snd, EffectiveWindow(ep.cfg, c));
    SlideKeeps(ep.cfg, ep.snd, EffectiveWindow(ep.cfg, c));
    SlideFlow(ep.cfg, ep.snd, una, nxt, log, n, arrived);
    k := EmitFlow(ep.cfg, Slid(ep, c), una, nxt + n, log, PassEnv(ep, c), now, w);
  }

  lemma {:induction false} EmitFlow(cfg: Config, s: Sender, una: nat, nxt: nat, log: seq<Piece>, e: TxEnv,
                                    now: nat -> u32, w: Wire) returns (k: nat)
    requires cfg.Valid() && SenderInv(cfg, s) && SenderFlow(s, una, nxt, log) && w in TxAll(s.buf, e, now).emits
    ensures una + k < nxt <= |log| && k < U32
    ensures w.cmd == CMD_PUSH && w.sn == Wrap(una + k) && w.una == e.una && Piece(w.frg, w.data) == log[una + k]
  {
    var t := TxAll(s.buf, e, now);
    TxAllFaithful(s.buf, e, now);
    k :| 0 <= k < |s.buf| && !s.buf[k].acked && w == ToWire(t.done[k]);
    assert Entry(cfg, s.buf[k], Add32(s.una, k)) && SameEntry(s.buf[k], t.done[k]);
    WrapAdd(una, k);
  }

  // ---- messages ---------------------------------------------------------------

  function Log(messages: seq<Payload>, mss: nat): seq<Piece>
    requires mss > 0
  {
    if messages == [] then []
    else
      var n := |messages| - 1;
      Log(messages[..n], mss) + Contents(Fragments(messages[n], mss))
  }

  // What Send lets through.
  predicate Acceptable(m: Payload, mss: nat)
    requires mss > 0
  {
    |m| > 0 && |Fragments(m, mss)| <= 255
  }

  lemma {:induction false} DivStep(x: nat, d: nat)
    requires d > 0
    ensures (x + d) / d == x / d + 1
  {
    var q, r := x / d, x % d;
    assert x == q * d + r;
    assert x + d == (q + 1) * d + r;
    DivUnique(x + d, d, q + 1, r);
  }

  lemma {:induction false} MultipleAtLeast(k: int, d: int)
    requires k > 0 && d > 0
    ensures k * d >= d
  {
  }

  lemma {:induction false} DivUnique(x: nat, d: nat, q: nat, r: nat)
    requires d > 0 && x == q * d + r && r < d
    ensures x / d == q
  {
    var q1, r1 := x / d, x % d;
    assert x == q1 * d + r1;
    if q > q1 {
      MultipleAtLeast(q - q1, d);
      assert false;
    } else if q < q1 {
      MultipleAtLeast(q1 - q, d);
      assert false;
    }
  }

  // The number of fragments is the one Send computes before cutting.
  lemma {:induction false} FragmentCount(msg: Payload, mss: nat)
    requires mss > 0
    ensures |Fragments(msg, mss)| == Count(|msg|, mss)
    decreases |msg|
  {
    if |msg| > mss {
      var rest := msg[mss..];
      FragmentCount(rest, mss);
      DivStep(|rest| + mss - 1, mss);
      if |rest| <= mss {
        DivUnique(|rest| + mss - 1, mss, 1, |rest| - 1);
      }
    }
  }

  // Fragments count down to zero and join to the message.
  lemma {:induction false} FragmentsShape(msg: Payload, mss: nat)
    requires mss > 0
    ensures Join(Fragments(msg, mss)) == msg
    ensures var f := Fragments(msg, mss);
            |f| <= 255 ==> forall i :: 0 <= i < |f| ==> f[i].frg == |f| - 1 - i
    decreases |msg|
  {
    var f := Fragments(msg, mss);
    if |msg| > mss {
      var rest := Fragments(msg[mss..], mss);
      FragmentsShape(msg[mss..], mss);
      assert f[1..] == rest;
      assert msg == msg[..mss] + msg[mss..];
    } else {
      assert f[1..] == [];
      assert Join([]) == [];
    }
  }

  lemma {:induction false} LogSlice(messages: seq<Payload>, mss: nat, d: nat)
    requires mss > 0 && d <= |messages|
    ensures Log(messages[..d], mss) <= Log(messages, mss)
    ensures d < |messages| ==>
              Log(messages[..d], mss) + Contents(Fragments(messages[d], mss)) <= Log(messages, mss)
  {
    var n := |messages| - 1;
    if d == |messages| {
      assert messages[..d] == messages;
    } else if d < n {
      LogSlice(messages[..n], mss, d);
      assert messages[..n][..d] == messages[..d];
      assert Log(messages[..n], mss) <= Log(messages, mss);
    }
  }

  lemma {:induction false} JoinContents(q: seq<Segment>, f: seq<Segment>)
    requires Contents(q) == Contents(f)
    ensures Join(q) == Join(f)
  {
    if f != [] {
      assert |q| == |f|;
      assert Contents(q)[0] == Content(q[0]) && Contents(f)[0] == Content(f[0]);
      assert Contents(q[1..]) == Contents(q)[1..] == Contents(f)[1..] == Contents(f[1..]);
      JoinContents(q[1..], f[1..]);
    }
  }

  lemma {:induction false} MessageEndAt(q: seq<Segment>, n: nat)
    requires 0 < n <= |q| && forall i :: 0 <= i < n ==> q[i].frg == n - 1 - i
    ensures MessageEnd(q) == n
  {
    if n > 1 {
      assert forall i :: 0 <= i < n - 1 ==> q[1..][i] == q[i + 1];
      MessageEndAt(q[1..], n - 1);
    }
  }

  // A receive queue that starts at a message boundary yields that message whole, and only
  // once all of its fragments are there.
  lemma {:induction false} QueueFront(q: seq<Segment>, m: Payload, mss: nat)
    requires mss > 0 && Acceptable(m, mss) && q != []
    requires var f := Contents(Fragments(m, mss)); Contents(q) <= f || f <= Contents(q)
    ensures Ready(q) <==> |Fragments(m, mss)| <= |q|
    ensures Ready(q) ==> MessageEnd(q) == |Fragments(m, mss)| && Join(q[..MessageEnd(q)]) == m
  {
    var f := Fragments(m, mss);
    FragmentsShape(m, mss);
    assert Contents(q)[0] == Contents(f)[0];
    assert q[0].frg == |f| - 1;
    if |f| <= |q| {
      forall i | 0 <= i < |f| ensures q[i].frg == |f| - 1 - i {
        assert Contents(q)[i] == Contents(f)[i];
      }
      MessageEndAt(q, |f|);
      assert Contents(q[..|f|]) == Contents(q)[..|f|] == Contents(f);
      JoinContents(q[..|f|], f);
    }
  }
}
