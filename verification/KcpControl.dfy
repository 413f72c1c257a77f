// What the timers and windows of an endpoint are for: nothing due stays unsent, the next
// update comes in time, and the windows stay within their bounds.
module KcpControl {
  import opened Words
  import opened KcpWire
  import opened KcpSpec
  import opened KcpInvariant

  // ---- the transmission pass ----------------------------------------------------------

  // The pass up to entry k.
  function Upto(buf: seq<Segment>, e: TxEnv, now: nat -> u32, k: nat): (t: Tx)
    requires k <= |buf|
    ensures |t.done| == k
  {
    TxAll(buf[..k], e, now)
  }

  // The timer of an entry that was sent has run out, and nothing else calls for it.
  predicate TimedOut(s: Segment, current: u32, e: TxEnv) {
    s.xmit > 0 && TimeDiff(current, s.resendts) >= 0 && !Overtaken(s, e)
  }

  // Later entries were acknowledged often enough, or at all when there is nothing new to send.
  predicate Overtaken(s: Segment, e: TxEnv) {
    s.fastack != MAX32 && (s.fastack >= e.resent || (s.fastack > 0 && e.noNew))
  }

  // An entry that waits is due: new, overtaken or timed out.
  predicate Due(s: Segment, current: u32, e: TxEnv) {
    s.xmit == 0 || Overtaken(s, e) || TimeDiff(current, s.resendts) >= 0
  }

  // The entry was put on the wire at its turn and re-armed from the time it was looked at,
  // backing off only if its timer ran out; overtaken, it does not count again before a timeout,
  // which starts the count anew.
  ghost predicate SentAt(s: Segment, s1: Segment, t: Tx, t1: Tx, e: TxEnv) {
    && t1.emits == t.emits + [ToWire(s1)] && s1.xmit == Add32(s.xmit, 1) && s1.ts == t1.current
    && s1.resendts == Add32(t.current, s1.rto)
    && s1.rto == (if TimedOut(s, t.current, e) then Add32(s.rto, if e.cfg.nodelay then e.rto / 2 else e.rto) else e.rto)
    && s1.fastack == (if s.xmit == 0 then s.fastack else if Overtaken(s, e) then MAX32 else 0)
  }

  lemma {:induction false} PassStep(buf: seq<Segment>, e: TxEnv, now: nat -> u32, k: nat)
    requires k < |buf|
    ensures Upto(buf, e, now, k + 1) == TxStep(Upto(buf, e, now, k), buf[k], e, now)
  {
    assert buf[..k + 1][..k] == buf[..k];
  }

  // The pass never revisits an entry.
  lemma {:induction false} PassKeepsDone(buf: seq<Segment>, e: TxEnv, now: nat -> u32, k: nat, n: nat)
    requires k < n <= |buf|
    ensures Upto(buf, e, now, n).done[k] == Upto(buf, e, now, k + 1).done[k]
    ensures Upto(buf, e, now, k + 1).emits <= Upto(buf, e, now, n).emits
    ensures Upto(buf, e, now, n).next <= Upto(buf, e, now, k + 1).next
    decreases n
  {
    if k + 1 < n {
      PassKeepsDone(buf, e, now, k, n - 1);
      PassStep(buf, e, now, n - 1);
    }
  }

  // Nothing is overdue and nothing goes out early: at its turn every entry that waits is sent
  // if it is due and is left alone otherwise; acknowledged ones are passed over.
  lemma {:induction false} NothingOverdue(buf: seq<Segment>, e: TxEnv, now: nat -> u32, k: nat)
    requires k < |buf|
    ensures var t, t1, s1 := Upto(buf, e, now, k), Upto(buf, e, now, k + 1), TxAll(buf, e, now).done[k];
            && (if !buf[k].acked && Due(buf[k], t.current, e) then SentAt(buf[k], s1, t, t1, e)
                else s1 == buf[k] && t1.emits == t.emits)
            && t1.emits <= TxAll(buf, e, now).emits
  {
    PassStep(buf, e, now, k);
    PassKeepsDone(buf, e, now, k, |buf|);
    assert buf[..|buf|] == buf;
  }

  // The next update is due within the interval, and not after the timer of any entry that
  // waits.
  lemma {:induction false} NextUpdateInTime(buf: seq<Segment>, e: TxEnv, now: nat -> u32, k: nat)
    requires k < |buf| && !buf[k].acked
    ensures var t := TxAll(buf, e, now);
            var left := TimeDiff(t.done[k].resendts, Upto(buf, e, now, k + 1).current);
            left <= 0 || t.next <= left
  {
    PassStep(buf, e, now, k);
    PassKeepsDone(buf, e, now, k, |buf|);
    assert buf[..|buf|] == buf;
  }

  lemma {:induction false} NextUpdateInInterval(buf: seq<Segment>, e: TxEnv, now: nat -> u32)
    ensures TxAll(buf, e, now).next <= e.cfg.interval
    decreases |buf|
  {
    if buf != [] {
      NextUpdateInInterval(buf[..|buf| - 1], e, now);
    }
  }

  // The time left of the timer of entry k, when the pass has dealt with it.
  function TimeLeft(buf: seq<Segment>, e: TxEnv, now: nat -> u32, k: nat): int
    requires k < |buf|
  {
    var t := Upto(buf, e, now, k + 1);
    TimeDiff(t.done[k].resendts, t.current)
  }

  // Some entry that waits has that much time left.
  ghost predicate Awaited(buf: seq<Segment>, e: TxEnv, now: nat -> u32, n: nat, next: int)
    requires n <= |buf|
  {
    exists k :: 0 <= k < n && !buf[k].acked && TimeLeft(buf, e, now, k) == next > 0
  }

  lemma {:induction false} NextUpdateFrom(buf: seq<Segment>, e: TxEnv, now: nat -> u32, n: nat)
    requires n <= |buf|
    ensures var next := Upto(buf, e, now, n).next; next == e.cfg.interval || Awaited(buf, e, now, n, next)
    decreases n
  {
    if n > 0 {
      NextUpdateFrom(buf, e, now, n - 1);
      PassStep(buf, e, now, n - 1);
      var t, t1 := Upto(buf, e, now, n - 1), Upto(buf, e, now, n);
      if t1.next != t.next { assert TimeLeft(buf, e, now, n - 1) == t1.next; }
    }
  }

  // The next update is exactly the first of the interval and the timers that run.
  lemma {:induction false} NextUpdateExact(buf: seq<Segment>, e: TxEnv, now: nat -> u32, next: u32)
    ensures TxAll(buf, e, now).next == next <==>
              && (next == e.cfg.interval || Awaited(buf, e, now, |buf|, next)) && next <= e.cfg.interval
              && (forall k :: 0 <= k < |buf| && !buf[k].acked && TimeLeft(buf, e, now, k) > 0 ==>
                    next <= TimeLeft(buf, e, now, k))
  {
    assert buf[..|buf|] == buf;
    NextUpdateFrom(buf, e, now, |buf|);
    NextUpdateInInterval(buf, e, now);
    var t := TxAll(buf, e, now);
    forall k | 0 <= k < |buf| && !buf[k].acked && TimeLeft(buf, e, now, k) > 0
      ensures t.next <= TimeLeft(buf, e, now, k)
    {
      NextUpdateInTime(buf, e, now, k);
      PassKeepsDone(buf, e, now, k, |buf|);
    }
  }

  // What a flush returns: for a flush of acks only, the interval.
  lemma {:induction false} FlushNext(ep: Endpoint, full: bool, probeNow: u32, now: nat -> u32)
    requires ep.cfg.Valid()
    ensures var next, c := Flush(ep, full, probeNow, now).next, Probe(ep.ctl, probeNow);
            if full then next == TxAll(Slid(ep, c).buf, PassEnv(ep, c), now).next else next == ep.cfg.interval
  {
  }

  // The clock is read once before the pass and once for each segment sent.
  lemma {:induction false} ClockRead(buf: seq<Segment>, e: TxEnv, now: nat -> u32, k: nat)
    requires k <= |buf|
    ensures var t := Upto(buf, e, now, k); t.current == now(|t.emits|)
    decreases k
  {
    if k > 0 {
      ClockRead(buf, e, now, k - 1);
      PassStep(buf, e, now, k - 1);
    }
  }

  // The k-th entry waits and its timer has run out at its turn.
  predicate LostAt(buf: seq<Segment>, e: TxEnv, now: nat -> u32, k: nat)
    requires k < |buf|
  {
    !buf[k].acked && TimedOut(buf[k], Upto(buf, e, now, k).current, e)
  }

  // It waits and was overtaken.
  predicate FastAt(buf: seq<Segment>, e: TxEnv, k: nat)
    requires k < |buf|
  {
    !buf[k].acked && buf[k].xmit > 0 && Overtaken(buf[k], e)
  }

  // It is sent, as often as the link is given up for.
  predicate DeadAt(buf: seq<Segment>, e: TxEnv, now: nat -> u32, k: nat)
    requires k < |buf|
  {
    !buf[k].acked && Due(buf[k], Upto(buf, e, now, k).current, e) && Add32(buf[k].xmit, 1) >= e.cfg.dead_link
  }

  ghost predicate SomeLost(buf: seq<Segment>, e: TxEnv, now: nat -> u32, n: nat)
    requires n <= |buf|
  {
    exists k :: 0 <= k < n && LostAt(buf, e, now, k)
  }

  ghost predicate SomeFast(buf: seq<Segment>, e: TxEnv, n: nat)
    requires n <= |buf|
  {
    exists k :: 0 <= k < n && FastAt(buf, e, k)
  }

  ghost predicate SomeDead(buf: seq<Segment>, e: TxEnv, now: nat -> u32, n: nat)
    requires n <= |buf|
  {
    exists k :: 0 <= k < n && DeadAt(buf, e, now, k)
  }

  lemma {:induction false} SomeMore(buf: seq<Segment>, e: TxEnv, now: nat -> u32, n: nat)
    requires 0 < n <= |buf|
    ensures SomeLost(buf, e, now, n) <==> SomeLost(buf, e, now, n - 1) || LostAt(buf, e, now, n - 1)
    ensures SomeFast(buf, e, n) <==> SomeFast(buf, e, n - 1) || FastAt(buf, e, n - 1)
    ensures SomeDead(buf, e, now, n) <==> SomeDead(buf, e, now, n - 1) || DeadAt(buf, e, now, n - 1)
  {
  }

  // A pass notes a loss exactly if a timer has run out, a fast retransmission exactly if an entry
  // was overtaken, and a dead link exactly if an entry has been sent that often.
  lemma {:induction false} PassNotes(buf: seq<Segment>, e: TxEnv, now: nat -> u32, n: nat)
    requires n <= |buf|
    ensures var t := Upto(buf, e, now, n);
            && (t.lost <==> SomeLost(buf, e, now, n)) && (t.change <==> SomeFast(buf, e, n))
            && (t.dead <==> SomeDead(buf, e, now, n))
    decreases n
  {
    if n > 0 {
      PassNotes(buf, e, now, n - 1);
      PassStep(buf, e, now, n - 1);
      NoteLast(Upto(buf, e, now, n - 1), buf[n - 1], e, now);
      SomeMore(buf, e, now, n);
    }
  }

  lemma {:induction false} NoteLast(t: Tx, s: Segment, e: TxEnv, now: nat -> u32)
    ensures var t1 := TxStep(t, s, e, now);
            && (t1.lost <==> t.lost || (!s.acked && TimedOut(s, t.current, e)))
            && (t1.change <==> t.change || (!s.acked && s.xmit > 0 && Overtaken(s, e)))
            && (t1.dead <==> t.dead || (!s.acked && Due(s, t.current, e) && Add32(s.xmit, 1) >= e.cfg.dead_link))
  {
  }

  // Segments go out in the order of their numbers: what a pass emits are the entries sent,
  // in window order.
  lemma {:induction false} SentInOrder(cfg: Config, s: Sender, e: TxEnv, now: nat -> u32, i: nat, j: nat)
    requires cfg.Valid() && SenderInv(cfg, s) && i < j < |TxAll(s.buf, e, now).emits|
    ensures TimeDiff(TxAll(s.buf, e, now).emits[j].sn, TxAll(s.buf, e, now).emits[i].sn) > 0
  {
    assert s.buf[..|s.buf|] == s.buf;
    var a := SentFrom(cfg, s, e, now, |s.buf|, i);
    var b := SentFrom(cfg, s, e, now, |s.buf|, j);
    SentApart(cfg, s, e, now, |s.buf|, i, j, a, b);
  }

  // The emitted segment i is the entry k.
  ghost predicate IsFrom(s: Sender, e: TxEnv, now: nat -> u32, n: nat, i: nat, k: nat)
    requires n <= |s.buf| <= MAX_WINDOW
  {
    && k < n && i < |Upto(s.buf, e, now, n).emits| && Upto(s.buf, e, now, n).emits[i].sn == Add32(s.una, k)
    && |Upto(s.buf, e, now, k).emits| == i && |Upto(s.buf, e, now, k + 1).emits| == i + 1
  }

  lemma {:induction false} SentFrom(cfg: Config, s: Sender, e: TxEnv, now: nat -> u32, n: nat, i: nat) returns (k: nat)
    requires cfg.Valid() && SenderInv(cfg, s) && n <= |s.buf| && i < |Upto(s.buf, e, now, n).emits|
    ensures IsFrom(s, e, now, n, i, k)
    decreases n
  {
    assert n > 0;
    PassStep(s.buf, e, now, n - 1);
    assert Entry(cfg, s.buf[n - 1], Add32(s.una, n - 1));
    if i < |Upto(s.buf, e, now, n - 1).emits| { k := SentFrom(cfg, s, e, now, n - 1, i); } else { k := n - 1; }
  }

  lemma {:induction false} EmitsGrow(buf: seq<Segment>, e: TxEnv, now: nat -> u32, k: nat, n: nat)
    requires k <= n <= |buf|
    ensures |Upto(buf, e, now, k).emits| <= |Upto(buf, e, now, n).emits|
    decreases n
  {
    if k < n {
      EmitsGrow(buf, e, now, k, n - 1);
      PassStep(buf, e, now, n - 1);
    }
  }

  lemma {:induction false} SentApart(cfg: Config, s: Sender, e: TxEnv, now: nat -> u32, n: nat, i: nat, j: nat,
                                     a: nat, b: nat)
    requires cfg.Valid() && SenderInv(cfg, s) && n <= |s.buf| && i < j
    requires IsFrom(s, e, now, n, i, a) && IsFrom(s, e, now, n, j, b)
    ensures a < b && TimeDiff(Upto(s.buf, e, now, n).emits[j].sn, Upto(s.buf, e, now, n).emits[i].sn) > 0
  {
    if b <= a { EmitsGrow(s.buf, e, now, b + 1, a + 1); }
  }

  // ---- windows ------------------------------------------------------------------------------

  // w is the smallest of the send window, the window of the peer and, unless it is switched off,
  // the congestion window.
  predicate IsWindow(cfg: Config, c: Control, w: u32) {
    && w <= cfg.snd_wnd && w <= c.rmt_wnd && (cfg.nocwnd || w <= c.cwnd)
    && (w == cfg.snd_wnd || w == c.rmt_wnd || (!cfg.nocwnd && w == c.cwnd))
  }

  // A flush lets in as much as the window holds, and no more; the pass is then over all of it,
  // with the timeout estimated, the threshold set, and a note of whether anything was new.
  lemma {:induction false} FlushPlan(ep: Endpoint, c: Control, w: u32)
    requires EndpointInv(ep) && c.rmt_wnd <= MAX_WINDOW && IsWindow(ep.cfg, c, w)
    ensures var s, n := Slid(ep, c), |ep.snd.buf|;
            && n <= |s.buf| && s.buf[..n] == ep.snd.buf && |s.buf| + |s.queue| == n + |ep.snd.queue|
            && (forall k :: n <= k < |s.buf| ==>
                  s.buf[k] == ep.snd.queue[k - n].(conv := ep.cfg.conv, cmd := CMD_PUSH, sn := Add32(ep.snd.una, k)))
            && (s.queue != [] ==> |s.buf| >= w) && (|s.buf| > n ==> |s.buf| <= w)
    ensures var e := PassEnv(ep, c);
            && e.rto == c.rto && e.cfg == ep.cfg
            && e.resent == (if ep.cfg.fastresend == 0 then MAX32 else ep.cfg.fastresend)
            && (e.noNew <==> |Slid(ep, c).buf| == |ep.snd.buf|)
  {
    assert EffectiveWindow(ep.cfg, c) == w;
    var n := |ep.snd.buf|;
    forall k | n <= k < |Slid(ep, c).buf| ensures Add32(ep.snd.nxt, k - n) == Add32(ep.snd.una, k) {
      AddTwice(ep.snd.una, n, k - n);
    }
  }

  lemma {:induction false} AddTwice(a: u32, m: nat, n: nat)
    requires m + n < U32
    ensures Add32(Add32(a, m), n) == Add32(a, m + n)
  {
  }

  // The congestion window after a full flush: one segment after a loss, with half the window as
  // threshold; after a fast retransmission half of what is in flight, and the threshold of skips
  // on top; as it was otherwise, but open.  A dead link is noted.
  lemma {:induction false} FlushWindow(ep: Endpoint, probeNow: u32, now: nat -> u32, w: u32)
    requires EndpointInv(ep) && IsWindow(ep.cfg, ep.ctl, w)
    ensures var c := Probe(ep.ctl, probeNow); var buf, e := Slid(ep, c).buf, PassEnv(ep, c);
            var r := Flush(ep, true, probeNow, now).ep.ctl;
            var lost, fast := SomeLost(buf, e, now, |buf|), SomeFast(buf, e, |buf|);
            && (r.state == if SomeDead(buf, e, now, |buf|) then MAX32 else ep.ctl.state)
            && (ep.cfg.nocwnd ==> r.cwnd == ep.ctl.cwnd && r.ssthresh == ep.ctl.ssthresh)
            && (!ep.cfg.nocwnd && lost ==> r.cwnd == 1 && r.ssthresh == Max(w / 2, 2))
            && (!ep.cfg.nocwnd && fast && !lost ==>
                  r.ssthresh == Max(|buf| / 2, 2) && r.cwnd == Max(1, Add32(r.ssthresh, e.resent)))
            && (!ep.cfg.nocwnd && !fast && !lost ==> r.ssthresh == ep.ctl.ssthresh && r.cwnd == Max(ep.ctl.cwnd, 1))
  {
    var c := Probe(ep.ctl, probeNow);
    var s, e := Slid(ep, c), PassEnv(ep, c);
    PassKeeps(ep, true, c, now);
    assert s.buf[..|s.buf|] == s.buf;
    PassNotes(s.buf, e, now, |s.buf|);
    NotedWindow(ep, c, TxAll(s.buf, e, now), w, |s.buf|);
  }

  lemma {:induction false} NotedWindow(ep: Endpoint, c: Control, t: Tx, w: u32, n: u32)
    requires ep.cfg.Valid() && IsWindow(ep.cfg, c, w) && Slid(ep, c).nxt == Add32(Slid(ep, c).una, n)
    ensures var r := PassControl(ep, c, t);
            && r.state == (if t.dead then MAX32 else c.state)
            && (ep.cfg.nocwnd ==> r.cwnd == c.cwnd && r.ssthresh == c.ssthresh)
            && (!ep.cfg.nocwnd && t.lost ==> r.cwnd == 1 && r.ssthresh == Max(w / 2, 2))
            && (!ep.cfg.nocwnd && t.change && !t.lost ==>
                  r.ssthresh == Max(n / 2, 2) && r.cwnd == Max(1, Add32(r.ssthresh, Resent(ep.cfg))))
            && (!ep.cfg.nocwnd && !t.change && !t.lost ==> r.ssthresh == c.ssthresh && r.cwnd == Max(c.cwnd, 1))
  {
    assert EffectiveWindow(ep.cfg, c) == w;
    SubAdd(Slid(ep, c).una, n);
  }

  lemma {:induction false} SubAdd(a: u32, n: u32)
    ensures Sub32(Add32(a, n), a) == n
  {
  }

  // After a flush the congestion window is open; a loss closes it to one segment, and the
  // threshold never falls below two.
  lemma {:induction false} WindowAfterFlush(c: Control, mss: u32, cwnd: u32, inflight: u32, resent: u32, change: bool,
                                            lost: bool)
    ensures var r := AfterFlush(c, mss, cwnd, inflight, resent, change, lost);
            && r.cwnd >= 1 && (lost ==> r.cwnd == 1 && r.incr == mss && r.ssthresh == Max(cwnd / 2, 2))
            && (change && !lost ==> r.ssthresh == Max(inflight / 2, 2))
            && (change || lost ==> r.ssthresh >= 2)
            && (!change && !lost && c.cwnd >= 1 ==> r == c)
  {
  }

  // The byte count behind the congestion window is not ahead of it.
  ghost predicate Paced(c: Control, mss: u32) {
    c.cwnd <= MAX_WINDOW ==> c.incr <= (c.cwnd + 1) * mss
  }

  // Growth stays within the peer's window, is by one below the threshold, and never shrinks
  // the window; nothing wraps for payloads that an IP datagram can carry.
  lemma {:induction false} WindowGrowth(c: Control, mss: u32)
    requires 0 < mss <= 0xFFFF && c.rmt_wnd <= MAX_WINDOW && Paced(c, mss)
    ensures var r := GrowWindow(c, mss);
            && (c.cwnd >= c.rmt_wnd ==> r == c)
            && (c.cwnd < c.rmt_wnd ==> c.cwnd <= r.cwnd <= c.rmt_wnd)
            && (c.cwnd < c.rmt_wnd && c.cwnd < c.ssthresh ==> r.cwnd == c.cwnd + 1)
            && r.rmt_wnd == c.rmt_wnd && r.ssthresh == c.ssthresh && Paced(r, mss)
  {
    if c.cwnd < c.rmt_wnd {
      Product(c.cwnd + 1, mss);
      Product(c.rmt_wnd, mss);
      if c.cwnd < c.ssthresh {
        StartSlow(c.cwnd, c.incr, mss);
      } else {
        Avoidance(Max(c.incr, mss), mss, c.cwnd);
        Closer(c.rmt_wnd, mss);
      }
    }
  }

  // The byte count after one growth: a segment more below the threshold; at or above it
  // mss * mss / incr, rounded down, and a sixteenth of mss more.
  function Grown(c: Control, mss: u32): nat
    requires mss > 0
  {
    var base := Max(c.incr, mss);
    if c.cwnd < c.ssthresh then c.incr + mss else base + mss * mss / base + mss / 16
  }

  // The window that goes with it: one more below the threshold; at or above it the same until a
  // whole segment is reached, and then the byte count in segments, rounded up.
  predicate Follows(c: Control, mss: u32, want: nat)
    requires mss > 0
  {
    if c.cwnd < c.ssthresh then want == c.cwnd + 1
    else if Grown(c, mss) < (c.cwnd + 1) * mss then want == c.cwnd
    else (want - 1) * mss < Grown(c, mss) <= want * mss
  }

  // Exactly that is what growth does, up to the window of the peer.
  lemma {:induction false} GrowthExact(c: Control, mss: u32, want: nat)
    requires 0 < mss <= 0xFFFF && c.cwnd < c.rmt_wnd <= MAX_WINDOW && Paced(c, mss) && Follows(c, mss, want)
    ensures var r := GrowWindow(c, mss);
            r.cwnd == Min(want, c.rmt_wnd) && r.incr == if want > c.rmt_wnd then c.rmt_wnd * mss else Grown(c, mss)
  {
    Product(c.cwnd + 1, mss);
    Product(c.rmt_wnd, mss);
    var incr := Grown(c, mss);
    if c.cwnd < c.ssthresh {
      StartSlow(c.cwnd, c.incr, mss);
    } else {
      GrownFits(c, mss);
      if incr >= (c.cwnd + 1) * mss { CeilingIs(incr, mss, want); }
    }
  }

  lemma {:induction false} GrownFits(c: Control, mss: u32)
    requires 0 < mss <= 0xFFFF && c.cwnd < MAX_WINDOW && Paced(c, mss) && c.cwnd >= c.ssthresh
    ensures var base: u32, incr := Max(c.incr, mss), Grown(c, mss);
            && Add32(base, Add32(Div32(Mul32(mss, mss), base), mss / 16)) == incr
            && incr < U32 && Add32(incr, mss - 1) == incr + mss - 1
  {
    var base := Max(c.incr, mss);
    Product(mss, mss);
    Product(c.cwnd + 1, mss);
    SquareOver(mss, base);
    SumFits(base, mss * mss / base, mss);
  }

  lemma {:induction false} CeilingIs(a: nat, b: nat, q: nat)
    requires b > 0 && (q - 1) * b < a <= q * b
    ensures (a + b - 1) / b == q
  {
    assert (q - 1) * b == q * b - b;
    DivIs(a + b - 1, b, q, a - 1 - (q - 1) * b);
  }

  // Products of window and payload sizes fit 32 bits.
  lemma {:induction false} Product(n: nat, mss: nat)
    requires n <= MAX_WINDOW && 0 < mss <= 0xFFFF
    ensures n * mss <= 0xFFFE_0001 && Mul32(n, mss) == n * mss && (n > 0 ==> mss <= n * mss)
  {
    TimesAtMost(n, MAX_WINDOW, mss);
    if n > 0 { TimesAtMost(1, n, mss); }
  }

  lemma {:induction false} StartSlow(cwnd: nat, incr: u32, mss: u32)
    requires cwnd < MAX_WINDOW && incr <= (cwnd + 1) * mss <= 0xFFFE_0001 && mss <= 0xFFFF
    ensures Add32(incr, mss) <= (cwnd + 1 + 1) * mss
  {
    assert (cwnd + 2) * mss == (cwnd + 1) * mss + mss;
  }

  lemma {:induction false} Closer(n: nat, mss: nat)
    ensures n * mss <= (n + 1) * mss
  {
    TimesAtMost(n, n + 1, mss);
  }

  // One step of congestion avoidance, in 32 bits.
  lemma {:induction false} Avoidance(base: u32, mss: u32, cwnd: u32)
    requires 0 < mss <= 0xFFFF && mss <= base <= 0xFFFE_0001 && cwnd < MAX_WINDOW
    ensures var incr := Add32(base, Add32(Div32(Mul32(mss, mss), base), mss / 16));
            var cwnd1 := Div32(Add32(incr, mss - 1), mss);
            && (Mul32(cwnd + 1, mss) <= incr ==> cwnd1 >= cwnd + 1 && incr <= (cwnd1 + 1) * mss)
            && (Mul32(cwnd + 1, mss) > incr ==> incr <= (cwnd + 1) * mss)
  {
    Product(mss, mss);
    Product(cwnd + 1, mss);
    SquareOver(mss, base);
    var d := mss * mss / base;
    var incr := base + d + mss / 16;
    SumFits(base, d, mss);
    RoundedUp(incr, mss, cwnd + 1);
    Closer((incr + mss - 1) / mss, mss);
  }

  lemma {:induction false} SumFits(base: u32, d: u32, mss: u32)
    requires 0 < mss <= 0xFFFF && base <= 0xFFFE_0001 && d <= mss && (base >= 0x8000_0000 ==> d <= 1)
    ensures var incr := base + d + mss / 16;
            incr < U32 && Add32(base, Add32(d, mss / 16)) == incr && Add32(incr, mss - 1) == incr + mss - 1
  {
  }

  lemma {:induction false} RoundedUp(a: nat, b: nat, q: nat)
    requires b > 0
    ensures a <= (a + b - 1) / b * b && (q * b <= a ==> q <= (a + b - 1) / b)
  {
    var d, r := (a + b - 1) / b, (a + b - 1) % b;
    assert a + b - 1 == d * b + r;
    if q * b <= a { QuotientAtLeast(a + b - 1, b, q); }
  }

  lemma {:induction false} SquareOver(m: nat, base: nat)
    requires 0 < m <= 0xFFFF && base >= m
    ensures m * m <= 0xFFFE_0001 && m * m / base <= m && (base >= 0x8000_0000 ==> m * m / base <= 1)
  {
    TimesAtMost(m, 0xFFFF, m);
    TimesAtMost(m, base, m);
    QuotientAtMost(m * m, base, m);
    if base >= 0x8000_0000 { QuotientBelow(m * m, base); }
  }

  lemma {:induction false} QuotientBelow(a: nat, b: nat)
    requires b > 0 && a < 2 * b
    ensures a / b <= 1
  {
    var q, r := a / b, a % b;
    assert a == q * b + r;
    if q >= 2 { TimesAtMost(2, q, b); }
  }

  lemma {:induction false} TimesAtMost(x: nat, y: nat, m: nat)
    requires x <= y
    ensures x * m <= y * m
  {
  }

  lemma {:induction false} QuotientAtMost(a: nat, b: nat, q: nat)
    requires b > 0 && a <= b * q
    ensures a / b <= q
  {
  }

  lemma {:induction false} QuotientAtLeast(a: nat, b: nat, q: nat)
    requires b > 0 && q * b <= a
    ensures a / b >= q
  {
    var d := a / b;
    assert a < (d + 1) * b;
    if d + 1 <= q { TimesAtMost(d + 1, q, b); }
  }

  // ---- window probes --------------------------------------------------------------------------

  // The time between probes of a closed window starts with 0.5 seconds and grows by half, up to
  // 120 seconds; a probe is asked for exactly when it has passed; an open window stops probing.
  lemma {:induction false} ProbeWait(c: Control, current: u32)
    requires c.probe_wait == 0 || PROBE_INIT <= c.probe_wait <= PROBE_LIMIT
    ensures var r := Probe(c, current);
            && (c.rmt_wnd != 0 ==> r.probe_wait == 0 && r.ts_probe == 0 && r.askSend == c.askSend)
            && (c.rmt_wnd == 0 ==> PROBE_INIT <= r.probe_wait <= PROBE_LIMIT && c.probe_wait <= r.probe_wait)
            && (r.askSend <==> c.askSend ||
                               (c.rmt_wnd == 0 && c.probe_wait != 0 && TimeDiff(current, c.ts_probe) >= 0))
            && (c.rmt_wnd == 0 && c.probe_wait == 0 ==> r.probe_wait == 500)
            && (c.rmt_wnd == 0 && c.probe_wait != 0 && TimeDiff(current, c.ts_probe) < 0 ==> r == c)
            && (c.rmt_wnd == 0 && c.probe_wait != 0 && TimeDiff(current, c.ts_probe) >= 0 ==>
                  if 3 * c.probe_wait < 240002 then 2 * r.probe_wait <= 3 * c.probe_wait < 2 * r.probe_wait + 2
                  else r.probe_wait == 120000)
            && (c.rmt_wnd == 0 && r != c ==> r.ts_probe == Add32(current, r.probe_wait))
  {
  }
}
