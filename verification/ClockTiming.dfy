// When timers are delivered: the pointers count ticks, a timer's first delivery attempt comes
// at its due tick or the one after, and draining a list ends.
module ClockTiming {
  import opened Words
  import opened ClockSpec
  import opened ClockConserve

  function Digit(n: nat, l: nat): (d: nat)
    requires l < LEVELS
    ensures d < Slots(l)
  {
    n / Unit(l) % Slots(l)
  }

  // Tick m drains the list at p.
  predicate Visits(p: Place, m: nat)
    requires Good(p)
  {
    m % Unit(p.level) == 0 && Digit(m, p.level) == p.slot
  }

  // The first tick after n that drains the list at p.
  function NextVisit(p: Place, n: nat): (m: nat)
    requires Good(p)
  {
    var u, s := Unit(p.level), Slots(p.level);
    u * (n / u + 1 + (p.slot - n / u - 1) % s)
  }

  // The same, where tick n itself has drained only the levels below i.
  function VisitFrom(p: Place, n: nat, i: nat): nat
    requires Good(p)
  {
    if p.level >= i && Visits(p, n) then n else NextVisit(p, n)
  }

  // The first number after a that leaves the remainder slot.
  lemma {:induction false} NextMod(a: nat, slot: nat, s: nat, x: nat)
    requires slot < s
    ensures var q := a + 1 + (slot - a - 1) % s; q % s == slot && (a < x < q ==> x % s != slot)
  {
    var t, d := (slot - a - 1) / s, (slot - a - 1) % s;
    var q := a + 1 + d;
    assert slot - a - 1 == t * s + d;
    DivIs(q, s, -t, slot);
    if a < x < q && x % s == slot {
      var y := x / s;
      assert x == y * s + slot;
      assert (-t - y) * s == q - x;
      AtLeast(-t - y, s);
    }
  }

  lemma {:induction false} Positive(u: nat, d: int)
    requires u * d > 0
    ensures d > 0
  {
  }

  lemma {:induction false} QuotientBetween(n: nat, k: nat, u: nat, q: nat)
    requires u > 0 && n < k < u * q && k % u == 0
    ensures n / u < k / u < q
  {
    var a, x := n / u, k / u;
    assert k == u * x && u * a <= n;
    assert u * (x - a) == u * x - u * a && u * (q - x) == u * q - u * x;
    Positive(u, x - a);
    Positive(u, q - x);
  }

  lemma {:induction false} NextVisitExact(p: Place, n: nat)
    requires Good(p)
    ensures var m := NextVisit(p, n);
            n < m && Visits(p, m) && forall k :: n < k < m ==> !Visits(p, k)
  {
    var u, s := Unit(p.level), Slots(p.level);
    var a := n / u;
    var q := a + 1 + (p.slot - a - 1) % s;
    NextMod(a, p.slot, s, 0);
    assert NextVisit(p, n) == u * q;
    DivIs(u * q, u, q, 0);
    assert n < u * (a + 1) <= u * q;
    forall k | n < k < u * q && k % u == 0 ensures k / u % s != p.slot {
      QuotientBetween(n, k, u, q);
      NextMod(a, p.slot, s, k / u);
    }
  }

  // ---- the pointers are the digits of the tick count ---------------------------------

  lemma {:induction false} ModSteps(q: int, s: nat)
    requires s > 1
    ensures q % s == ((q - 1) % s + 1) % s
  {
    var r := (q - 1) % s;
    var k := (q - 1) / s;
    if r + 1 < s { DivIs(q, s, k, r + 1); } else { DivIs(q, s, k + 1, 0); DivIs(s, s, 1, 0); }
    if r + 1 < s { DivIs(r + 1, s, 0, r + 1); }
  }

  lemma {:induction false} DigitTurns(n: nat, l: nat)
    requires n > 0 && l < LEVELS
    ensures n % Unit(l) == 0 ==> Digit(n, l) == (Digit(n - 1, l) + 1) % Slots(l)
    ensures n % Unit(l) != 0 ==> Digit(n, l) == Digit(n - 1, l)
  {
    var u := Unit(l);
    var q, r := n / u, n % u;
    assert n == q * u + r;
    if r > 0 {
      DivIs(n - 1, u, q, r - 1);
    } else {
      assert (q - 1) * u == q * u - u;
      DivIs(n - 1, u, q - 1, u - 1);
      ModSteps(q, Slots(l));
    }
  }

  // A level turns exactly when all pointers below it are back at zero.
  lemma {:induction false} TurnsWhen(n: nat, l: nat)
    requires l + 1 < LEVELS
    ensures n % Unit(l + 1) == 0 <==> n % Unit(l) == 0 && Digit(n, l) == 0
  {
    if l == 0 { } else if l == 1 { } else { }
  }

  lemma {:induction false} VisitSteps(p: Place, n: nat)
    requires Good(p) && n > 0
    ensures VisitFrom(p, n, 0) == NextVisit(p, n - 1)
  {
    NextVisitExact(p, n - 1);
    NextVisitExact(p, n);
    var m, m1 := NextVisit(p, n - 1), NextVisit(p, n);
    assert m1 < m ==> false;
    assert !Visits(p, n) && m < m1 ==> false;
  }

  // ---- where a timer is put ---------------------------------------------------------

  lemma {:induction false} Ahead(q: nat, k: nat, s: nat)
    requires 0 < k < s
    ensures var e := (k + q % s) % s; e != q % s && (e - q - 1) % s == k - 1
  {
    var a, b := q / s, q % s;
    var c, e := (k + b) / s, (k + b) % s;
    assert q == a * s + b && k + b == c * s + e;
    assert e - q - 1 == -(a + c) * s + (k - 1) by { assert (a + c) * s == a * s + c * s; }
    DivIs(e - q - 1, s, -(a + c), k - 1);
    if e == b && c > 0 { AtLeast(c, s); }
  }

  lemma {:induction false} Rounded(n: nat, u: nat)
    requires u > 0
    ensures u * (n / u) <= n < u * (n / u) + u
  {
  }

  lemma {:induction false} AheadTicks(n: nat, ticks: nat, u: nat, s: nat)
    requires 0 < u <= ticks && 0 < ticks / u < s
    ensures var e := (ticks / u + n / u % s) % s; var m := u * (n / u + 1 + (e - n / u - 1) % s);
            e != n / u % s && n < m <= n + ticks < m + 2 * u && (u == 1 ==> m == n + ticks)
  {
    var q, k := n / u, ticks / u;
    Ahead(q, k, s);
    Rounded(n, u);
    Rounded(ticks, u);
    AtLeast(k, u);
    VisitIs(u, q, k, (((k + q % s) % s) - q - 1) % s);
  }

  lemma {:induction false} VisitIs(u: nat, q: nat, k: nat, d: int)
    requires d == k - 1
    ensures u * (q + 1 + d) == u * q + u * k && k * u == u * k
  {
  }

  // A timer put at the level that fits its distance is next visited at most two of that
  // level's units before it is due, and exactly when due at the bottom level.
  lemma {:induction false} PlacedAhead(slot: seq<nat>, ticks: nat, n: nat)
    requires Pointers(slot) && 0 < ticks < HORIZON
    requires var p := PlaceFor(slot, ticks); slot[p.level] == Digit(n, p.level)
    ensures var p := PlaceFor(slot, ticks); var u := Unit(p.level); var m := NextVisit(p, n);
            && !Visits(p, n)
            && n < m <= n + ticks < m + 2 * u
            && (p.level == 0 ==> m == n + ticks)
  {
    var p := PlaceFor(slot, ticks);
    InReach(slot, ticks);
    AheadTicks(n, ticks, Unit(p.level), Slots(p.level));
  }

  lemma {:induction false} InReach(slot: seq<nat>, ticks: nat)
    requires Pointers(slot) && 0 < ticks < HORIZON
    ensures var p := PlaceFor(slot, ticks); var k := ticks / Unit(p.level);
            Unit(p.level) <= ticks && 0 < k < Slots(p.level) && p.slot == (k + slot[p.level]) % Slots(p.level)
  {
  }

  lemma {:induction false} VisitedSoon(p: Place, n: nat)
    requires Good(p)
    ensures n < NextVisit(p, n) <= n + Reach(p.level)
  {
    var u, s := Unit(p.level), Slots(p.level);
    assert u * (n / u + s) == u * (n / u) + u * s;
    assert (p.slot - n / u - 1) % s + 1 <= s;
    NextVisitExact(p, n);
    MulMono(u, n / u + 1 + (p.slot - n / u - 1) % s, n / u + s);
  }

  lemma {:induction false} MulMono(u: nat, a: int, b: int)
    requires a <= b
    ensures u * a <= u * b
  {
    assert u * (b - a) == u * b - u * a;
  }

  // ---- the invariant ----------------------------------------------------------------

  // The first tick not before the deadline, for ticks counted from the time t0.
  function DueTick(when: int, t0: int): (d: int)
    ensures t0 + SI * (d - 1) < when <= t0 + SI * d
  {
    (when - t0 + SI - 1) / SI
  }

  // At tick n, a timer at p that is next visited at tick v is on schedule.
  ghost predicate OnTime(t: Timer, due: Due, p: Place, v: nat, n: nat, t0: int)
    requires Good(p)
  {
    match due
    case Tried => p.level == 0 && DueTick(t.when, t0) <= v <= n + 1
    case Armed(d) =>
      && DueTick(t.when, t0) <= d && v <= d + 1
      && (p.level == 0 ==> d <= v)
      && (p.level > 0 ==> v <= d && d == DueTick(Seen(t.when, t0 + SI * v), t0) && Bounded(t.when, t0 + SI * v))
      && (0 < p.level < 3 ==> d < v + 2 * Unit(p.level))
      && (p.level == 3 && p.slot != 63 ==> d < n + HORIZON)
  }

  ghost predicate AllOnTime(s: seq<Timer>, due: map<int, Due>, p: Place, v: nat, n: nat, t0: int)
    requires Good(p)
  {
    forall t :: t in s ==> t.id in due && OnTime(t, due[t.id], p, v, n, t0)
  }

  ghost predicate Timely(tw: map<Place, seq<Timer>>, due: map<int, Due>, v: Place -> nat, n: nat, t0: int) {
    forall p :: p in tw ==> Good(p) && AllOnTime(tw[p], due, p, v(p), n, t0)
  }

  // First attempts are on the due tick or the next.
  ghost predicate Punctual(log: seq<Attempt>) {
    forall e :: e in log && e.due.Armed? ==> e.due.tick <= e.tick <= e.due.tick + 1
  }

  lemma {:induction false} TicksToDue(when: int, t0: int, m: int, time: int)
    requires time == t0 + SI * m && Bounded(when, time)
    ensures var d := DueTick(Seen(when, time), t0); TicksTo(when, time) == if d <= m then 1 else d - m
    ensures DueTick(when, t0) <= DueTick(Seen(when, time), t0)
  {
  }

  // What a deadline amounts to does not change until it is due.
  lemma {:induction false} SeenStays(when: int, t0: int, n: int, time: int, v: int)
    requires time == t0 + SI * n && Bounded(when, time) && n <= v <= DueTick(Seen(when, time), t0)
    ensures Bounded(when, t0 + SI * v) && Seen(when, t0 + SI * v) == Seen(when, time)
  {
  }

  // The code's distance is the true one, rounded up and at least one, exactly if it does not
  // leave the int64 range.
  lemma {:induction false} TicksExact(when: int, time: int)
    requires -I64 <= when < I64 && 0 <= time < I64 - SI
    ensures TicksTo(when, time) == Max(1, DueTick(when, time)) <==> Fits(when, time)
  {
    if Fits(when, time) { TicksToDue(when, time, 0, time); }
  }

  // ---- steps keep it ------------------------------------------------------------------

  lemma {:induction false} PopTimely(tw: map<Place, seq<Timer>>, due: map<int, Due>, v: Place -> nat,
                                      n: nat, t0: int, p: Place)
    requires Timely(tw, due, v, n, t0) && At(tw, p) != []
    ensures Timely(tw[p := tw[p][1..]], due, v, n, t0)
    ensures Good(p) && tw[p][0].id in due && OnTime(tw[p][0], due[tw[p][0].id], p, v(p), n, t0)
  {
    assert tw[p][0] in tw[p];
    forall t | t in tw[p][1..] ensures t in tw[p] {
      var k :| 0 <= k < |tw[p][1..]| && tw[p][1..][k] == t;
      assert tw[p][k + 1] == t;
    }
  }

  lemma {:induction false} PutTimely(tw: map<Place, seq<Timer>>, due: map<int, Due>, v: Place -> nat,
                                      n: nat, t0: int, p: Place, t: Timer)
    requires Timely(tw, due, v, n, t0) && Good(p)
    requires t.id in due && OnTime(t, due[t.id], p, v(p), n, t0)
    ensures Timely(tw[p := At(tw, p) + [t]], due, v, n, t0)
  {
    forall u ensures u in At(tw, p) + [t] <==> u in At(tw, p) || u == t { InAppended(At(tw, p), t, u); }
  }

  // What is due for an id in no list does not matter.
  lemma {:induction false} OtherDue(tw: map<Place, seq<Timer>>, due: map<int, Due>, due1: map<int, Due>,
                                     v: Place -> nat, n: nat, t0: int, x: int)
    requires Timely(tw, due, v, n, t0)
    requires forall p, t :: In(tw, p, t) ==> t.id != x
    requires forall id :: id != x && id in due ==> id in due1 && due1[id] == due[id]
    ensures Timely(tw, due1, v, n, t0)
  {
    forall p | p in tw ensures AllOnTime(tw[p], due1, p, v(p), n, t0) {
      forall t | t in tw[p] ensures t.id in due1 && OnTime(t, due1[t.id], p, v(p), n, t0) {
        assert In(tw, p, t);
      }
    }
  }

  lemma {:induction false} PunctualNow(log: seq<Attempt>, e: Attempt)
    requires Punctual(log) && (e.due.Armed? ==> e.due.tick <= e.tick <= e.due.tick + 1)
    ensures Punctual(log + [e])
  {
  }

  // The wheel is consistent, and every timer is on schedule for the visits v.
  ghost predicate Running(w: Wheel, v: Place -> nat, t0: int) {
    Conserved(w) && Timely(w.tw, w.due, v, w.n, t0) && Punctual(w.log) && Pointers(w.slot)
  }

  // The bottom list is drained now, and the one after it at the next tick.
  ghost predicate AtBottom(slot: seq<nat>, n: nat, v: Place -> nat)
    requires Pointers(slot)
  {
    v(Place(0, slot[0])) == n && v(Place(0, (slot[0] + 1) % Slots(0))) == n + 1
  }

  lemma {:induction false} TriggerInduction(P: (Wheel, nat) -> bool, w: Wheel, now: int, busy: set<int>, k: nat)
    requires Pointers(w.slot) && P(w, k)
    requires forall x: Wheel, j: nat :: Pointers(x.slot) && P(x, j + 1) ==> P(TriggerStep(x, now, busy), j)
    ensures P(TriggerSteps(w, now, busy, k), 0)
    decreases k
  {
    if k > 0 {
      TriggerInduction(P, TriggerStep(w, now, busy), now, busy, k - 1);
    }
  }

  lemma {:induction false} SentOnTime(w: Wheel, now: int, v: Place -> nat, t0: int)
    requires Running(w, v, t0) && AtBottom(w.slot, w.n, v) && At(w.tw, Place(0, w.slot[0])) != []
    ensures var here := Place(0, w.slot[0]);
            Running(Attempted(Popped(w, here), w.tw[here][0], now, true), v, t0)
  {
    var here := Place(0, w.slot[0]);
    var t := w.tw[here][0];
    DoneConserves(w, here, now);
    PopTimely(w.tw, w.due, v, w.n, t0, here);
    PopListed(w.tw, w.locs, here);
    var w1 := Popped(w, here);
    PunctualNow(w.log, Attempt(t, DueOf(w1, t.id), w.n, now, true));
    OtherDue(w1.tw, w.due, w.due - {t.id}, v, w.n, t0, t.id);
  }

  lemma {:induction false} RetryOnTime(w: Wheel, now: int, v: Place -> nat, t0: int)
    requires Running(w, v, t0) && AtBottom(w.slot, w.n, v) && At(w.tw, Place(0, w.slot[0])) != []
    ensures var here := Place(0, w.slot[0]); var t := w.tw[here][0];
            Running(Put(Attempted(Popped(w, here), t, now, false), Place(0, (w.slot[0] + 1) % Slots(0)), t), v, t0)
  {
    var here := Place(0, w.slot[0]);
    var next := Place(0, (w.slot[0] + 1) % Slots(0));
    var t := w.tw[here][0];
    RetryConserves(w, here, next, now);
    PopTimely(w.tw, w.due, v, w.n, t0, here);
    PopListed(w.tw, w.locs, here);
    var w1 := Popped(w, here);
    PunctualNow(w.log, Attempt(t, DueOf(w1, t.id), w.n, now, false));
    OtherDue(w1.tw, w.due, w.due[t.id := Tried], v, w.n, t0, t.id);
    PutTimely(w1.tw, w.due[t.id := Tried], v, w.n, t0, next, t);
  }

  // While the bottom list is drained, with j timers to go.
  ghost predicate Triggering(w: Wheel, j: nat, slot: seq<nat>, n: nat, v: Place -> nat, t0: int) {
    Running(w, v, t0) && w.slot == slot && w.n == n && |At(w.tw, Place(0, slot[0]))| == j
  }

  lemma {:induction false} SentCase(w: Wheel, j: nat, now: int, busy: set<int>, v: Place -> nat, t0: int)
    requires Triggering(w, j + 1, w.slot, w.n, v, t0) && AtBottom(w.slot, w.n, v)
    requires var t := At(w.tw, Place(0, w.slot[0]))[0]; t.when <= now && (t.sink.Batch? || t.id !in busy)
    ensures Triggering(TriggerStep(w, now, busy), j, w.slot, w.n, v, t0)
  {
    SentOnTime(w, now, v, t0);
  }

  lemma {:induction false} RetryIs(w: Wheel, now: int, busy: set<int>)
    requires Pointers(w.slot) && At(w.tw, Place(0, w.slot[0])) != []
    requires var t := At(w.tw, Place(0, w.slot[0]))[0]; t.when <= now && !t.sink.Batch? && t.id in busy
    ensures var here := Place(0, w.slot[0]); var t := w.tw[here][0];
            var r := Put(Attempted(Popped(w, here), t, now, false), Place(0, (w.slot[0] + 1) % Slots(0)), t);
            TriggerStep(w, now, busy) == r && r.slot == w.slot && r.n == w.n && At(r.tw, here) == w.tw[here][1..]
  {
  }

  lemma {:induction false} RetryCase(w: Wheel, j: nat, now: int, busy: set<int>, v: Place -> nat, t0: int)
    requires Triggering(w, j + 1, w.slot, w.n, v, t0) && AtBottom(w.slot, w.n, v)
    requires var t := At(w.tw, Place(0, w.slot[0]))[0]; t.when <= now && !t.sink.Batch? && t.id in busy
    ensures Triggering(TriggerStep(w, now, busy), j, w.slot, w.n, v, t0)
  {
    RetryIs(w, now, busy);
    RetryOnTime(w, now, v, t0);
  }

  lemma {:induction false} TriggerStepOnTime(w: Wheel, j: nat, now: int, busy: set<int>, v: Place -> nat, t0: int)
    requires Triggering(w, j + 1, w.slot, w.n, v, t0) && now >= t0 + SI * w.n && AtBottom(w.slot, w.n, v)
    ensures Triggering(TriggerStep(w, now, busy), j, w.slot, w.n, v, t0)
  {
    var here := Place(0, w.slot[0]);
    var t := w.tw[here][0];
    assert t.when <= now by { PopTimely(w.tw, w.due, v, w.n, t0, here); }
    if t.sink.Batch? || t.id !in busy { SentCase(w, j, now, busy, v, t0); } else { RetryCase(w, j, now, busy, v, t0); }
  }

  lemma {:induction false} TriggerOnTime(w: Wheel, now: int, busy: set<int>, v: Place -> nat, t0: int)
    requires Running(w, v, t0) && now >= t0 + SI * w.n && AtBottom(w.slot, w.n, v)
    ensures Triggering(Trigger(w, now, busy), 0, w.slot, w.n, v, t0)
  {
    var P := (x: Wheel, j: nat) => Triggering(x, j, w.slot, w.n, v, t0);
    forall x: Wheel, j: nat | Pointers(x.slot) && P(x, j + 1) ensures P(TriggerStep(x, now, busy), j) {
      TriggerStepOnTime(x, j, now, busy, v, t0);
    }
    TriggerInduction(P, w, now, busy, |At(w.tw, Place(0, w.slot[0]))|);
  }

  // ---- cascades -------------------------------------------------------------------------

  // A timer taken from the list being drained goes back into it exactly if it is too far
  // ahead for the top level while the last slot of that level is being drained.
  lemma {:induction false} PutBackWhen(slot: seq<nat>, ticks: nat, i: nat)
    requires Pointers(slot) && i < LEVELS && ticks > 0
    ensures PlaceFor(slot, ticks) == Place(i, slot[i]) <==> i == 3 && slot[3] == Slots(3) - 1 && ticks >= HORIZON
  {
    if ticks < HORIZON && PlaceFor(slot, ticks).level == i {
      InReach(slot, ticks);
      Ahead(slot[i], ticks / Unit(i), Slots(i));
    }
  }

  lemma {:induction false} CascadeInduction(P: (Wheel, nat) -> bool, w: Wheel, i: nat, tk: int, k: nat)
    requires Pointers(w.slot) && i < LEVELS && P(w, k)
    requires forall x: Wheel, j: nat :: Pointers(x.slot) && P(x, j + 1) ==> P(CascadeStep(x, i, tk), j)
    ensures P(CascadeSteps(w, i, tk, k), 0)
    decreases k
  {
    if k > 0 {
      CascadeInduction(P, CascadeStep(w, i, tk), i, tk, k - 1);
    }
  }

  // A trigger step makes the list shorter: nothing is put back into it.
  lemma {:induction false} TriggerShrinks(w: Wheel, now: int, busy: set<int>)
    requires Pointers(w.slot) && At(w.tw, Place(0, w.slot[0])) != []
    ensures var p := Place(0, w.slot[0]); var r := TriggerStep(w, now, busy);
            r.slot == w.slot && p in r.tw && r.tw[p] == w.tw[p][1..]
  {
    PutBackWhen(w.slot, TicksTo(w.tw[Place(0, w.slot[0])][0].when, w.lastTime), 0);
  }

  lemma {:induction false} CascadeShrinks(w: Wheel, i: nat, tk: int)
    requires Pointers(w.slot) && i < LEVELS
    ensures var here := Place(i, w.slot[i]); var s := At(w.tw, here);
            var back := i == 3 && w.slot[3] == Slots(3) - 1 && s != [] && TicksTo(s[0].when, tk) >= HORIZON;
            s != [] ==> At(CascadeStep(w, i, tk).tw, here) == if back then s[1..] + [s[0]] else s[1..]
  {
    var here := Place(i, w.slot[i]);
    if At(w.tw, here) != [] {
      PutBackWhen(w.slot, TicksTo(At(w.tw, here)[0].when, tk), i);
    }
  }

  // Draining a list ends exactly if no timer in it is put back.
  lemma {:induction false} DrainEnds(w: Wheel, i: nat, tk: int)
    requires Pointers(w.slot) && i < LEVELS && !Stuck(w, i, tk)
    ensures At(CascadeSteps(w, i, tk, |At(w.tw, Place(i, w.slot[i]))|).tw, Place(i, w.slot[i])) == []
  {
    var P := (x: Wheel, j: nat) =>
      Pointers(x.slot) && x.slot == w.slot && !Stuck(x, i, tk) && |At(x.tw, Place(i, x.slot[i]))| == j;
    forall x: Wheel, j: nat | Pointers(x.slot) && P(x, j + 1) ensures P(CascadeStep(x, i, tk), j) {
      CascadeShrinks(x, i, tk);
    }
    CascadeInduction(P, w, i, tk, |At(w.tw, Place(i, w.slot[i]))|);
  }

  lemma {:induction false} FarStays(s: seq<Timer>, tk: int)
    requires Far(s, tk)
    ensures Far(if TicksTo(s[0].when, tk) >= HORIZON then s[1..] + [s[0]] else s[1..], tk)
  {
    var k :| 0 <= k < |s| && TicksTo(s[k].when, tk) >= HORIZON;
    if TicksTo(s[0].when, tk) >= HORIZON {
      assert (s[1..] + [s[0]])[|s| - 1] == s[0];
    } else {
      assert s[1..][k - 1] == s[k];
    }
  }

  lemma {:induction false} DrainNeverEnds(w: Wheel, i: nat, tk: int, k: nat)
    requires Pointers(w.slot) && i < LEVELS && Stuck(w, i, tk)
    ensures At(CascadeSteps(w, i, tk, k).tw, Place(i, w.slot[i])) != []
  {
    var P := (x: Wheel, j: nat) => Pointers(x.slot) && x.slot == w.slot && Stuck(x, i, tk);
    forall x: Wheel, j: nat | Pointers(x.slot) && P(x, j + 1) ensures P(CascadeStep(x, i, tk), j) {
      CascadeShrinks(x, i, tk);
      FarStays(At(x.tw, Place(3, x.slot[3])), tk);
    }
    CascadeInduction(P, w, i, tk, k);
  }
}
