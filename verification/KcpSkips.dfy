/** Fast retransmission: which entries of the window an acknowledgement counts against, and when
    that brings an entry out again before its timer.
 */
module KcpSkips {
  import opened Words
  import opened KcpWire
  import opened KcpSpec
  import opened KcpInvariant
  import opened KcpControl

  // ---- one acknowledgement -------------------------------------------------------------

  // An ack that was sent no earlier than the entry counts, unless the entry counts no more.
  predicate Counts(seg: Segment, ts: u32) {
    TimeDiff(seg.ts, ts) <= 0 && seg.fastack != MAX32
  }

  // An ack of the entry at k raises exactly the counts of earlier entries that were not sent
  // later; it calls for a retransmission exactly if one of these reaches the threshold.
  lemma {:induction false} SkipsExact(s: Sender, sn: u32, ts: u32, fastresend: u32, k: nat)
    requires TimeDiff(sn, s.una) == k < |s.buf|
    ensures var r := CountSkips(s, sn, ts);
            && r.queue == s.queue && r.una == s.una && r.nxt == s.nxt && |r.buf| == |s.buf|
            && (forall j :: 0 <= j < |s.buf| ==>
                  r.buf[j] == if j < k && Counts(s.buf[j], ts)
                              then s.buf[j].(fastack := s.buf[j].fastack + 1) else s.buf[j])
            && (SkipsDue(s, sn, ts, fastresend) <==>
                  exists j :: 0 <= j < k && r.buf[j].fastack > s.buf[j].fastack && r.buf[j].fastack >= fastresend)
  {
  }

  // An ack of a number outside the window does nothing.
  lemma {:induction false} SkipsNothing(s: Sender, sn: u32, ts: u32, fastresend: u32)
    requires !(0 <= TimeDiff(sn, s.una) < |s.buf|)
    ensures CountSkips(s, sn, ts) == s && !SkipsDue(s, sn, ts, fastresend)
  {
    assert CountSkips(s, sn, ts).buf == s.buf;
  }

  lemma {:induction false} SkipsExactly(s: Sender, sn: u32, ts: u32, fastresend: u32)
    ensures var r, k := CountSkips(s, sn, ts), TimeDiff(sn, s.una);
            && |r.buf| == |s.buf|
            && (forall j :: 0 <= j < |s.buf| ==>
                  r.buf[j] == if j < k < |s.buf| && Counts(s.buf[j], ts)
                              then s.buf[j].(fastack := s.buf[j].fastack + 1) else s.buf[j])
            && (SkipsDue(s, sn, ts, fastresend) <==>
                  exists j :: 0 <= j < |s.buf| && r.buf[j].fastack > s.buf[j].fastack && r.buf[j].fastack >= fastresend)
  {
    var k := TimeDiff(sn, s.una);
    if 0 <= k < |s.buf| { SkipsExact(s, sn, ts, fastresend, k); } else { SkipsNothing(s, sn, ts, fastresend); }
  }

  // ---- one segment ------------------------------------------------------------------------

  // The segment neither releases nor acknowledges the entry at j.
  predicate Spares(s: Sender, j: nat, w: Wire) {
    && j < |s.buf| && UnaCount(s.buf, w.una) <= j
    && (w.cmd == CMD_ACK ==> TimeDiff(w.sn, DropAcked(s, w.una).una) != j - UnaCount(s.buf, w.una))
  }

  // It acknowledges a later entry of the window, sent no earlier.
  predicate Overtakes(s: Sender, j: nat, w: Wire)
    requires Spares(s, j, w)
  {
    var s1 := DropAcked(s, w.una);
    && w.cmd == CMD_ACK && j - UnaCount(s.buf, w.una) < TimeDiff(w.sn, s1.una) < |s1.buf|
    && TimeDiff(s.buf[j].ts, w.ts) <= 0
  }

  // Where the entry is afterwards.
  function PlaceAfter(s: Sender, j: nat, w: Wire): nat
    requires Spares(s, j, w)
  {
    j - UnaCount(s.buf, w.una)
  }

  function Count1(s: Sender, j: nat, w: Wire): nat
    requires Spares(s, j, w)
  {
    if Overtakes(s, j, w) then 1 else 0
  }

  lemma {:induction false} SegmentCounts(ep: Endpoint, w: Wire, regular: bool, j: nat)
    requires Spares(ep.snd, j, w) && ep.snd.buf[j].fastack < MAX32
    ensures var s1, j1, seg := InputSegment(ep, w, regular).snd, PlaceAfter(ep.snd, j, w), ep.snd.buf[j];
            && j1 < |s1.buf| && s1.buf[j1] == seg.(fastack := seg.fastack + Count1(ep.snd, j, w))
            && (Overtakes(ep.snd, j, w) && seg.fastack + 1 >= ep.cfg.fastresend ==> Urgent(ep, w))
  {
    var s1 := DropAcked(ep.snd, w.una);
    var j1 := PlaceAfter(ep.snd, j, w);
    assert s1.buf[j1] == ep.snd.buf[j];
    if w.cmd == CMD_ACK {
      var s2 := MarkAcked(s1, w.sn);
      assert s2.buf[j1] == s1.buf[j1] && s2.una == s1.una && |s2.buf| == |s1.buf|;
      if 0 <= TimeDiff(w.sn, s1.una) < |s1.buf| {
        SkipsExact(s2, w.sn, w.ts, ep.cfg.fastresend, TimeDiff(w.sn, s1.una));
      } else {
        SkipsNothing(s2, w.sn, w.ts, ep.cfg.fastresend);
      }
    }
  }

  // ---- one datagram ---------------------------------------------------------------------------

  ghost predicate SparesAll(ep: Endpoint, ws: seq<Wire>, regular: bool, j: nat)
    decreases ws
  {
    ws == [] || (Spares(ep.snd, j, ws[0]) &&
                 SparesAll(InputSegment(ep, ws[0], regular), ws[1..], regular, PlaceAfter(ep.snd, j, ws[0])))
  }

  // How many of the segments overtake the entry.
  ghost function CountAll(ep: Endpoint, ws: seq<Wire>, regular: bool, j: nat): (n: nat)
    requires SparesAll(ep, ws, regular, j)
    ensures n <= |ws|
    decreases ws
  {
    if ws == [] then 0
    else
      Count1(ep.snd, j, ws[0]) +
      CountAll(InputSegment(ep, ws[0], regular), ws[1..], regular, PlaceAfter(ep.snd, j, ws[0]))
  }

  ghost function PlaceAfterAll(ep: Endpoint, ws: seq<Wire>, regular: bool, j: nat): nat
    requires SparesAll(ep, ws, regular, j)
    decreases ws
  {
    if ws == [] then j
    else PlaceAfterAll(InputSegment(ep, ws[0], regular), ws[1..], regular, PlaceAfter(ep.snd, j, ws[0]))
  }

  lemma {:induction false} SegmentsCount(ep: Endpoint, ws: seq<Wire>, regular: bool, j: nat)
    requires SparesAll(ep, ws, regular, j) && j < |ep.snd.buf| && ep.snd.buf[j].fastack + |ws| < MAX32
    ensures var s1, j1 := InputAll(ep, ws, regular).snd, PlaceAfterAll(ep, ws, regular, j);
            var n, seg := CountAll(ep, ws, regular, j), ep.snd.buf[j];
            && n <= |ws| && j1 < |s1.buf| && s1.buf[j1] == seg.(fastack := seg.fastack + n)
            && (n > 0 && seg.fastack + n >= ep.cfg.fastresend ==> AnyUrgent(ep, ws, regular))
    decreases ws
  {
    if ws != [] {
      SegmentCounts(ep, ws[0], regular, j);
      SegmentsCount(InputSegment(ep, ws[0], regular), ws[1..], regular, PlaceAfter(ep.snd, j, ws[0]));
    }
  }

  // The entry is among these segments.
  ghost predicate Contains(emits: seq<Wire>, seg: Segment) {
    exists w :: w in emits && w.cmd == CMD_PUSH && w.sn == seg.sn && w.frg == seg.frg && w.data == seg.data
  }

  // A flush sends the entry or leaves it as it is; a full one sends it if the threshold is reached.
  lemma {:induction false} FlushCounts(ep: Endpoint, full: bool, clock: Clock, j: nat)
    requires EndpointInv(ep) && j < |ep.snd.buf| && !ep.snd.buf[j].acked && ep.snd.buf[j].xmit > 0
    ensures var f, seg := Flush(ep, full, clock.probe, clock.now), ep.snd.buf[j];
            && (Contains(f.emits, seg) || (j < |f.ep.snd.buf| && f.ep.snd.buf[j] == seg))
            && (full && 0 < ep.cfg.fastresend <= seg.fastack < MAX32 ==> Contains(f.emits, seg))
  {
    var c := Probe(ep.ctl, clock.probe);
    var buf, e := Slid(ep, c).buf, PassEnv(ep, c);
    var seg := ep.snd.buf[j];
    assert buf[j] == seg && Entry(ep.cfg, seg, Add32(ep.snd.una, j));
    if full {
      NothingOverdue(buf, e, clock.now, j);
      if Due(seg, Upto(buf, e, clock.now, j).current, e) {
        var w := PassSends(buf, e, clock.now, j);
        assert w in Flush(ep, true, clock.probe, clock.now).emits;
      }
    }
  }

  lemma {:induction false} PassSends(buf: seq<Segment>, e: TxEnv, now: nat -> u32, k: nat) returns (w: Wire)
    requires k < |buf| && !buf[k].acked && Due(buf[k], Upto(buf, e, now, k).current, e)
    ensures w in TxAll(buf, e, now).emits
    ensures w.cmd == buf[k].cmd && w.sn == buf[k].sn && w.frg == buf[k].frg && w.data == buf[k].data
  {
    NothingOverdue(buf, e, now, k);
    TxAllFaithful(buf, e, now);
    var s1 := TxAll(buf, e, now).done[k];
    assert SameEntry(buf[k], s1);
    w := ToWire(s1);
    var e1 := Upto(buf, e, now, k + 1).emits;
    assert e1[|e1| - 1] == w && TxAll(buf, e, now).emits[|e1| - 1] == w;
  }

  lemma {:induction false} RespondCounts(ep: Endpoint, urgent: bool, ackNoDelay: bool, clock: Clock, j: nat)
    requires EndpointInv(ep) && j < |ep.snd.buf| && !ep.snd.buf[j].acked && ep.snd.buf[j].xmit > 0
    ensures var (ep1, emits) := Respond(ep, urgent, ackNoDelay, clock); var seg := ep.snd.buf[j];
            && (Contains(emits, seg) || (j < |ep1.snd.buf| && ep1.snd.buf[j] == seg))
            && (urgent && 0 < ep.cfg.fastresend <= seg.fastack < MAX32 ==> Contains(emits, seg))
  {
    FlushCounts(ep, urgent, clock, j);
  }

  // A datagram as Input gets it, and the segments in it.
  datatype Datagram = Datagram(data: Bytes, regular: bool, ackNoDelay: bool, clock: Clock)

  function Segments(ep: Endpoint, d: Datagram): seq<Wire> { Decode(ep.cfg.conv, d.data).0 }

  function Take(ep: Endpoint, d: Datagram): Endpoint
    requires ep.cfg.Valid()
  {
    Input(ep, d.data, d.regular, d.ackNoDelay, d.clock).0
  }

  ghost predicate Sends(ep: Endpoint, d: Datagram, seg: Segment)
    requires ep.cfg.Valid()
  {
    Contains(Input(ep, d.data, d.regular, d.ackNoDelay, d.clock).2, seg)
  }

  // A whole datagram that spares the entry at j, which has been sent and waits.
  ghost predicate Passes(ep: Endpoint, d: Datagram, j: nat) {
    && |d.data| >= OVERHEAD && Decode(ep.cfg.conv, d.data).1 == 0 && |Segments(ep, d)| < HALF
    && SparesAll(ep, Segments(ep, d), d.regular, j)
    && j < |ep.snd.buf| && !ep.snd.buf[j].acked && ep.snd.buf[j].xmit > 0
  }

  // Input sends the entry, or only counts; with the count that reaches the threshold it sends.
  lemma {:induction false} InputCounts(ep: Endpoint, d: Datagram, j: nat)
    requires EndpointInv(ep) && Passes(ep, d, j) && ep.snd.buf[j].fastack < HALF && ep.cfg.fastresend > 0
    ensures var ws, seg := Segments(ep, d), ep.snd.buf[j];
            var s1, n, j1 := Take(ep, d).snd, CountAll(ep, ws, d.regular, j), PlaceAfterAll(ep, ws, d.regular, j);
            && (Sends(ep, d, seg) || (j1 < |s1.buf| && s1.buf[j1] == seg.(fastack := seg.fastack + n)))
            && (n > 0 && seg.fastack + n >= ep.cfg.fastresend ==> Sends(ep, d, seg))
  {
    var ws, seg := Segments(ep, d), ep.snd.buf[j];
    SegmentsCount(ep, ws, d.regular, j);
    InputAllKeeps(ep, ws, d.regular);
    var ep1 := InputAll(ep, ws, d.regular);
    SettleKeeps(ep1, ep.snd.una, AckTimes(ws), d.regular, d.clock.rtt);
    var ep2 := Settle(ep1, ep.snd.una, AckTimes(ws), d.regular, d.clock.rtt);
    var j1 := PlaceAfterAll(ep, ws, d.regular, j);
    RespondCounts(ep2, AnyUrgent(ep, ws, d.regular), d.ackNoDelay, d.clock, j1);
    SameContents(Input(ep, d.data, d.regular, d.ackNoDelay, d.clock).2, ep2.snd.buf[j1], seg);
  }

  lemma {:induction false} SameContents(emits: seq<Wire>, a: Segment, b: Segment)
    requires a.sn == b.sn && a.frg == b.frg && a.data == b.data
    ensures Contains(emits, a) <==> Contains(emits, b)
  {
  }

  // ---- runs --------------------------------------------------------------------------------------

  // Datagrams that all spare the entry, as long as it is not sent again.
  ghost predicate AllPass(ep: Endpoint, ds: seq<Datagram>, j: nat)
    requires ep.cfg.Valid()
    decreases |ds|
  {
    ds == [] || (Passes(ep, ds[0], j) &&
                 (Sends(ep, ds[0], ep.snd.buf[j]) ||
                  AllPass(Take(ep, ds[0]), ds[1..], PlaceAfterAll(ep, Segments(ep, ds[0]), ds[0].regular, j))))
  }

  // How often it is overtaken until then.
  ghost function TimesOvertaken(ep: Endpoint, ds: seq<Datagram>, j: nat): nat
    requires ep.cfg.Valid() && AllPass(ep, ds, j)
    decreases |ds|
  {
    if ds == [] then 0
    else
      var ws := Segments(ep, ds[0]);
      CountAll(ep, ws, ds[0].regular, j) +
      if Sends(ep, ds[0], ep.snd.buf[j]) then 0
      else TimesOvertaken(Take(ep, ds[0]), ds[1..], PlaceAfterAll(ep, ws, ds[0].regular, j))
  }

  ghost predicate SendsAny(ep: Endpoint, ds: seq<Datagram>, seg: Segment)
    requires ep.cfg.Valid()
    decreases |ds|
  {
    ds != [] && (Sends(ep, ds[0], seg) || SendsAny(Take(ep, ds[0]), ds[1..], seg))
  }

  // An entry that later ones overtake as often as the threshold says is sent again, by the Input
  // that brings the last of these acks at the latest.
  lemma {:induction false} FastResend(ep: Endpoint, ds: seq<Datagram>, j: nat)
    requires EndpointInv(ep) && AllPass(ep, ds, j) && j < |ep.snd.buf| && ep.snd.buf[j].fastack < ep.cfg.fastresend
    requires ep.snd.buf[j].fastack + TimesOvertaken(ep, ds, j) >= ep.cfg.fastresend
    ensures SendsAny(ep, ds, ep.snd.buf[j])
    decreases |ds|
  {
    var d, seg := ds[0], ep.snd.buf[j];
    InputCounts(ep, d, j);
    if !Sends(ep, d, seg) {
      var j1 := PlaceAfterAll(ep, Segments(ep, d), d.regular, j);
      InputKeeps(ep, d.data, d.regular, d.ackNoDelay, d.clock);
      FastResend(Take(ep, d), ds[1..], j1);
      SameEntryAny(Take(ep, d), ds[1..], seg, Take(ep, d).snd.buf[j1]);
    }
  }

  // The count does not matter for what is sent.
  lemma {:induction false} SameEntryAny(ep: Endpoint, ds: seq<Datagram>, a: Segment, b: Segment)
    requires EndpointInv(ep) && SendsAny(ep, ds, b) && a.sn == b.sn && a.frg == b.frg && a.data == b.data
    ensures SendsAny(ep, ds, a)
    decreases |ds|
  {
    if !Sends(ep, ds[0], b) {
      InputKeeps(ep, ds[0].data, ds[0].regular, ds[0].ackNoDelay, ds[0].clock);
      SameEntryAny(Take(ep, ds[0]), ds[1..], a, b);
    }
  }
}
