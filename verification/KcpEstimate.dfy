/** The round-trip estimate: what one sample does to it, where a steady round trip takes it, and
    which sample a datagram gives.
 */
module KcpEstimate {
  import opened Words
  import opened KcpWire
  import opened KcpSpec
  import opened KcpInvariant

  function Distance(a: int, b: int): nat { if a >= b then a - b else b - a }

  // ---- one sample -----------------------------------------------------------------

  // v moves towards the sample x by one w-th of the way, rounded down.
  predicate Weighed(v: int, x: int, w: nat, v1: int) {
    w * v1 <= (w - 1) * v + x < w * v1 + w
  }

  // The estimate and deviation (srtt1, rttvar1) after (srtt, rttvar) and the sample rtt: the first
  // sample is taken as it is, with half of it as deviation; later ones have the weight 1/8, and
  // their distance the weight 1/4, or 1/32 for a sample below the range expected.
  predicate Sampled(srtt: int, rttvar: int, rtt: int, srtt1: int, rttvar1: int) {
    if srtt == 0 then srtt1 == rtt && 2 * rttvar1 <= rtt < 2 * rttvar1 + 2
    else
      && Weighed(srtt, rtt, 8, srtt1)
      && Weighed(rttvar, Distance(rtt, srtt), if rtt < srtt1 - rttvar then 32 else 4, rttvar1)
  }

  lemma {:induction false} SampleExact(srtt: int, rttvar: int, rtt: int, srtt1: int, rttvar1: int)
    ensures Smooth(srtt, rttvar, rtt) == (srtt1, rttvar1) <==> Sampled(srtt, rttvar, rtt, srtt1, rttvar1)
  {
    if srtt != 0 {
      var s := srtt + (rtt - srtt) / 8;
      var w := if rtt < s - rttvar then 32 else 4;
      ShiftExact(srtt, rtt, srtt1, rttvar, Distance(rtt, srtt), w, rttvar1);
    }
  }

  // Adding the shifted difference is weighing.
  lemma {:induction false} ShiftExact(srtt: int, rtt: int, srtt1: int, rttvar: int, d: int, w: nat, rttvar1: int)
    requires w == 4 || w == 32
    ensures Weighed(srtt, rtt, 8, srtt1) <==> srtt1 == srtt + (rtt - srtt) / 8
    ensures Weighed(rttvar, d, w, rttvar1) <==> rttvar1 == rttvar + (d - rttvar) / w
  {
  }

  // ---- a steady round trip -----------------------------------------------------------

  // The estimate after n samples of the same length.
  function AfterSame(srtt: int, rttvar: int, rtt: nat, n: nat): (int, int) {
    if n == 0 then (srtt, rttvar)
    else
      var (s, v) := AfterSame(srtt, rttvar, rtt, n - 1);
      Smooth(s, v, rtt)
  }

  lemma {:induction false} MovesCloser(srtt: nat, rttvar: nat, rtt: nat)
    ensures var (s, v) := Smooth(srtt, rttvar, rtt);
            && 0 <= s && 0 <= v && 8 * Distance(s, rtt) <= 7 * Distance(srtt, rtt) + 7
            && (Distance(srtt, rtt) >= 8 ==> Distance(s, rtt) < Distance(srtt, rtt))
            && Distance(s, rtt) <= Distance(srtt, rtt)
  {
  }

  // The estimate never moves away from a steady round trip, and comes within 8 ms of it.
  lemma {:induction false} Converges(srtt: nat, rttvar: nat, rtt: nat, n: nat)
    ensures var (s, v) := AfterSame(srtt, rttvar, rtt, n);
            && 0 <= s && 0 <= v && Distance(s, rtt) <= Distance(srtt, rtt)
            && (n >= Distance(srtt, rtt) ==> Distance(s, rtt) < 8)
            && (Distance(s, rtt) < 8 || Distance(s, rtt) + n <= Distance(srtt, rtt))
  {
    if n > 0 {
      Converges(srtt, rttvar, rtt, n - 1);
      var (s, v) := AfterSame(srtt, rttvar, rtt, n - 1);
      MovesCloser(s, v, rtt);
    }
  }

  // ---- the sample of a datagram ---------------------------------------------------------

  // The timeout that follows, within its bounds, if it does not exceed 32 bits.
  predicate TimesOut(cfg: Config, srtt: int, rttvar: int, rto: u32) {
    var t := srtt + Max(cfg.interval, 4 * rttvar);
    0 <= t < U32 ==> rto == (if t > RTO_MAX then RTO_MAX else Max(t, Min(cfg.minrto, RTO_MAX)))
  }

  lemma {:induction false} RttExact(c: Control, cfg: Config, rtt: nat)
    requires 0 <= c.srtt < HALF && 0 <= c.rttvar < HALF && rtt < HALF
    ensures var r := UpdateRtt(c, cfg, rtt);
            Sampled(c.srtt, c.rttvar, rtt, r.srtt, r.rttvar) && TimesOut(cfg, r.srtt, r.rttvar, r.rto)
  {
    var r := UpdateRtt(c, cfg, rtt);
    SampleExact(c.srtt, c.rttvar, rtt, r.srtt, r.rttvar);
    SmoothBounds(c.srtt, c.rttvar, rtt, HALF - 1);
    TimeoutExact(r.srtt, r.rttvar, cfg.interval);
  }

  // The last ack of a datagram is its k-th segment.
  predicate LastAckAt(ws: seq<Wire>, k: nat) {
    k < |ws| && ws[k].cmd == CMD_ACK && forall j :: k < j < |ws| ==> ws[j].cmd != CMD_ACK
  }

  lemma {:induction false} AckTimesLast(ws: seq<Wire>, k: nat)
    requires LastAckAt(ws, k)
    ensures AckTimes(ws) != [] && AckTimes(ws)[|AckTimes(ws)| - 1] == ws[k].ts
    decreases |ws|
  {
    if k == 0 {
      NoTimes(ws[1..]);
    } else {
      assert LastAckAt(ws[1..], k - 1);
      AckTimesLast(ws[1..], k - 1);
    }
  }

  lemma {:induction false} NoTimes(ws: seq<Wire>)
    requires forall j :: 0 <= j < |ws| ==> ws[j].cmd != CMD_ACK
    ensures AckTimes(ws) == []
    decreases |ws|
  {
    if ws != [] { NoTimes(ws[1..]); }
  }

  // What is estimated stays the same.
  predicate SameTiming(c: Control, c1: Control) {
    c1.srtt == c.srtt && c1.rttvar == c.rttvar && c1.rto == c.rto
  }

  lemma {:induction false} AllKeepTiming(ep: Endpoint, ws: seq<Wire>, regular: bool)
    ensures SameTiming(ep.ctl, InputAll(ep, ws, regular).ctl)
    decreases ws
  {
    if ws != [] { AllKeepTiming(InputSegment(ep, ws[0], regular), ws[1..], regular); }
  }

  lemma {:induction false} RespondKeepsTiming(ep: Endpoint, urgent: bool, ackNoDelay: bool, clock: Clock)
    requires ep.cfg.Valid()
    ensures SameTiming(ep.ctl, Respond(ep, urgent, ackNoDelay, clock).0.ctl)
  {
    var c := Probe(ep.ctl, clock.probe);
    PassKeepsTiming(ep, c, Pass(ep, urgent, c, clock.now));
  }

  lemma {:induction false} PassKeepsTiming(ep: Endpoint, c: Control, t: Tx)
    requires ep.cfg.Valid()
    ensures SameTiming(c, PassControl(ep, c, t))
  {
  }

  lemma {:induction false} SettleTiming(ep: Endpoint, before: u32, acks: seq<u32>, regular: bool, current: u32)
    requires ep.cfg.Valid()
    ensures var c := Settle(ep, before, acks, regular, current).ctl;
            if acks != [] && regular && TimeDiff(current, acks[|acks| - 1]) >= 0
            then SameTiming(UpdateRtt(ep.ctl, ep.cfg, TimeDiff(current, acks[|acks| - 1])), c)
            else SameTiming(ep.ctl, c)
  {
  }

  // Input of a whole datagram takes one sample, the age of its last ack, and none if there is no
  // ack in it, if it was recovered, or if the ack is from the future.
  lemma {:induction false} InputSamples(ep: Endpoint, data: Bytes, regular: bool, ackNoDelay: bool, clock: Clock,
                                        k: nat)
    requires EndpointInv(ep) && |data| >= OVERHEAD && Decode(ep.cfg.conv, data).1 == 0
    ensures var ws := Decode(ep.cfg.conv, data).0; var c := Input(ep, data, regular, ackNoDelay, clock).0.ctl;
            && (LastAckAt(ws, k) && regular && TimeDiff(clock.rtt, ws[k].ts) >= 0 ==>
                  && Sampled(ep.ctl.srtt, ep.ctl.rttvar, TimeDiff(clock.rtt, ws[k].ts), c.srtt, c.rttvar)
                  && TimesOut(ep.cfg, c.srtt, c.rttvar, c.rto))
            && (LastAckAt(ws, k) && (!regular || TimeDiff(clock.rtt, ws[k].ts) < 0) ==> SameTiming(ep.ctl, c))
            && ((forall j :: 0 <= j < |ws| ==> ws[j].cmd != CMD_ACK) ==> SameTiming(ep.ctl, c))
  {
    var ws := Decode(ep.cfg.conv, data).0;
    var ep1 := InputAll(ep, ws, regular);
    AllKeepTiming(ep, ws, regular);
    if LastAckAt(ws, k) { AckTimesLast(ws, k); }
    if forall j :: 0 <= j < |ws| ==> ws[j].cmd != CMD_ACK { NoTimes(ws); }
    SettleTiming(ep1, ep.snd.una, AckTimes(ws), regular, clock.rtt);
    var ep2 := Settle(ep1, ep.snd.una, AckTimes(ws), regular, clock.rtt);
    RespondKeepsTiming(ep2, AnyUrgent(ep, ws, regular), ackNoDelay, clock);
    if LastAckAt(ws, k) && TimeDiff(clock.rtt, ws[k].ts) >= 0 {
      RttExact(ep1.ctl, ep1.cfg, TimeDiff(clock.rtt, ws[k].ts));
    }
  }

  // A datagram that does not parse to its end gives no sample.
  lemma {:induction false} NoSample(ep: Endpoint, data: Bytes, regular: bool, ackNoDelay: bool, clock: Clock)
    requires ep.cfg.Valid() && (|data| < OVERHEAD || Decode(ep.cfg.conv, data).1 < 0)
    ensures SameTiming(ep.ctl, Input(ep, data, regular, ackNoDelay, clock).0.ctl)
  {
    AllKeepTiming(ep, Decode(ep.cfg.conv, data).0, regular);
  }
}
