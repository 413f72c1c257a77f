// Which ticks of the timing wheel never end.
module ClockEnds {
  import opened Words
  import opened ClockSpec
  import opened ClockConserve
  import opened ClockTiming
  import opened ClockRuns

  // ---- a far timer stays where it is until its list is drained ---------------------------

  // Timers that far ahead wait in the last slot of the top level.
  lemma {:induction false} FarIsParked(w: Wheel, i: nat, t0: int, id: int) returns (p: Place)
    requires Running(w, Schedule(w.n, i), t0) && id in w.due && w.due[id].Armed? && w.due[id].tick >= w.n + HORIZON
    ensures id in w.locs && In(w.tw, p, w.locs[id]) && p == Place(3, 63)
    ensures var when, time := w.locs[id].when, t0 + SI * VisitFrom(p, w.n, i);
            DueTick(Seen(when, time), t0) == w.due[id].tick && Bounded(when, time)
  {
    p :| In(w.tw, p, w.locs[id]);
    assert OnTime(w.locs[id], w.due[id], p, VisitFrom(p, w.n, i), w.n, t0);
    VisitedSoon(p, w.n);
  }

  lemma {:induction false} FarInList(s: seq<Timer>, t: Timer, tk: int)
    requires t in s && TicksTo(t.when, tk) >= HORIZON
    ensures Far(s, tk)
  {
  }

  lemma {:induction false} FarIsStuck(w: Wheel, t0: int, tk: int, id: int)
    requires Running(w, Schedule(w.n, 3), t0) && Turned(w.slot, w.n, 3) && Visits(Place(3, 63), w.n)
    requires tk == t0 + SI * w.n && id in w.due && w.due[id].Armed? && w.due[id].tick >= w.n + HORIZON
    ensures Stuck(Turn(w, 3), 3, tk)
  {
    TurnTurns(w.slot, w.n, 3);
    var p := FarIsParked(w, 3, t0, id);
    TicksToDue(w.locs[id].when, t0, w.n, tk);
    FarInList(w.tw[p], w.locs[id], tk);
  }

  lemma {:induction false} FarNeverEnds(w: Wheel, i: nat, t0: int, tk: int, id: int)
    requires 0 < i < LEVELS && Running(w, Schedule(w.n, i), t0) && Turned(w.slot, w.n, i) && Visits(Place(3, 63), w.n)
    requires tk == t0 + SI * w.n && id in w.due && w.due[id].Armed? && w.due[id].tick >= w.n + HORIZON
    ensures !CascadeEnds(w, i, tk)
    decreases LEVELS - i
  {
    TurnsWhen(w.n, 2);
    TurnsWhen(w.n, 1);
    TurnsWhen(w.n, 0);
    if i == 3 {
      FarIsStuck(w, t0, tk, id);
    } else {
      CascadeLevelOnTime(w, i, t0, tk);
      FarNeverEnds(CascadeLevel(w, i, tk), i + 1, t0, tk, id);
    }
  }

  // Delivery attempts leave what is due for other timers alone.
  lemma {:induction false} OthersStayDue(w: Wheel, now: int, busy: set<int>, id: int)
    requires Pointers(w.slot) && id in w.due
    requires var s := At(w.tw, Place(0, w.slot[0])); s != [] ==> s[0].id != id
    ensures var r := TriggerStep(w, now, busy); id in r.due && r.due[id] == w.due[id]
  {
  }

  lemma {:induction false} TriggerKeepsDue(w: Wheel, now: int, busy: set<int>, v: Place -> nat, t0: int, id: int)
    requires Running(w, v, t0) && now >= t0 + SI * w.n && AtBottom(w.slot, w.n, v)
    requires id in w.due && w.due[id].Armed? && w.due[id].tick > w.n
    ensures var r := Trigger(w, now, busy); id in r.due && r.due[id] == w.due[id]
  {
    var P := (x: Wheel, j: nat) =>
      Triggering(x, j, w.slot, w.n, v, t0) && id in x.due && x.due[id] == w.due[id];
    forall x: Wheel, j: nat | Pointers(x.slot) && P(x, j + 1) ensures P(TriggerStep(x, now, busy), j) {
      TriggerStepOnTime(x, j, now, busy, v, t0);
      PopTimely(x.tw, x.due, v, x.n, t0, Place(0, x.slot[0]));
      OthersStayDue(x, now, busy, id);
    }
    TriggerInduction(P, w, now, busy, |At(w.tw, Place(0, w.slot[0]))|);
  }

  lemma {:induction false} StartKeepsDue(w: Wheel, now: int, busy: set<int>, t0: int, id: int)
    requires Steady(w, t0) && now >= t0 + SI * (w.n + 1)
    requires id in w.due && w.due[id].Armed? && w.due[id].tick > w.n + 1
    ensures var r := Trigger(Started(w), now, busy); id in r.due && r.due[id] == w.due[id]
  {
    StartOnTime(w, t0);
    var s := Started(w);
    TriggerKeepsDue(s, now, busy, Schedule(s.n, 0), t0, id);
  }

  // ---- exactly when a tick, a catch-up and a run end ---------------------------------------

  // A tick ends if and only if it does not drain the last top slot while some timer is due
  // a whole horizon later or more.
  lemma {:induction false} TickEndsWhen(w: Wheel, now: int, tk: int, busy: set<int>, t0: int)
    requires Steady(w, t0) && now >= tk == t0 + SI * (w.n + 1)
    ensures TickEnds(w, now, tk, busy) <==> Passable(w.due, w.n + 1)
  {
    if Passable(w.due, w.n + 1) {
      PassableTickEnds(w, now, tk, busy, t0);
    } else {
      var id :| id in w.due && w.due[id].Armed? && w.due[id].tick >= w.n + 1 + HORIZON;
      TriggeredOnTime(w, now, busy, t0);
      StartKeepsDue(w, now, busy, t0, id);
      FarNeverEnds(Trigger(Started(w), now, busy), 1, t0, tk, id);
    }
  }

  // The ticks up to m that are still to come all end.
  ghost predicate PassableTo(due: map<int, Due>, n: nat, m: int) {
    forall k: nat :: n < k <= m ==> Passable(due, k)
  }

  lemma {:induction false} TickKeepsFar(w: Wheel, now: int, tk: int, busy: set<int>, t0: int, k: nat)
    requires Steady(w, t0) && now >= t0 + SI * (w.n + 1) && k > w.n + 1
    ensures Passable(Tick(w, now, tk, busy).due, k) <==> Passable(w.due, k)
  {
    if !Near(w.due, k) {
      var id :| id in w.due && w.due[id].Armed? && w.due[id].tick >= k + HORIZON;
      StartKeepsDue(w, now, busy, t0, id);
    }
  }

  lemma {:induction false} PassableNext(due: map<int, Due>, due1: map<int, Due>, n: nat, m: int, ends: bool)
    requires n < m && (ends <==> Passable(due, n + 1)) && StillFar(due, due1, n + 1, m)
    ensures PassableTo(due, n, m) <==> ends && PassableTo(due1, n + 1, m)
  {
    forall k: nat | n + 1 < k <= m ensures Passable(due1, k) <==> Passable(due, k) { }
  }

  // What is far ahead after tick n is what was before.
  ghost predicate StillFar(due: map<int, Due>, due1: map<int, Due>, n: nat, m: int) {
    forall k: nat :: n < k <= m ==> (Passable(due1, k) <==> Passable(due, k))
  }

  lemma {:induction false} TickKeepsAllFar(w: Wheel, now: int, tk: int, busy: set<int>, t0: int, m: int)
    requires Steady(w, t0) && now >= t0 + SI * (w.n + 1)
    ensures StillFar(w.due, Tick(w, now, tk, busy).due, w.n + 1, m)
  {
    forall k: nat | w.n + 1 < k <= m ensures Passable(Tick(w, now, tk, busy).due, k) <==> Passable(w.due, k) {
      TickKeepsFar(w, now, tk, busy, t0, k);
    }
  }

  lemma {:induction false} TicksLeft(w: Wheel, now: int, tk: int, busy: set<int>, t0: int, m: int)
    requires Steady(w, t0) && now >= tk == t0 + SI * (w.n + 1) && m > w.n
    ensures PassableTo(w.due, w.n, m) <==>
            TickEnds(w, now, tk, busy) && PassableTo(Tick(w, now, tk, busy).due, w.n + 1, m)
  {
    TickEndsWhen(w, now, tk, busy, t0);
    TickKeepsAllFar(w, now, tk, busy, t0, m);
    PassableNext(w.due, Tick(w, now, tk, busy).due, w.n, m, TickEnds(w, now, tk, busy));
  }

  lemma {:induction false} AllEndStep(w: Wheel, now: int, tk: int, last: int, busy: nat -> set<int>, t0: int, m: int)
    requires AtTime(w, tk, t0) && now >= last >= tk && m > w.n
    ensures var r := TickAt(now, busy)(w, tk);
            && (PassableTo(w.due, w.n, m) <==> EndsAt(now, busy)(w, tk) && PassableTo(r.due, r.n, m))
            && (EndsAt(now, busy)(w, tk) ==> AtTime(r, tk + SI, t0)) && r.n == w.n + 1
  {
    TicksLeft(w, now, tk, busy(w.n), t0, m);
    if TickEnds(w, now, tk, busy(w.n)) { TickOnTime(w, now, tk, busy(w.n), t0); }
  }

  lemma {:induction false} AllEndWhen(w: Wheel, now: int, tk: int, last: int, busy: nat -> set<int>, t0: int, m: int)
    requires AtTime(w, tk, t0) && now >= last && t0 + SI * m <= last < t0 + SI * (m + 1)
    ensures AllEnd(EndsAt(now, busy), TickAt(now, busy), w, tk, last) <==> PassableTo(w.due, w.n, m)
    decreases last - tk
  {
    if tk <= last {
      AllEndStep(w, now, tk, last, busy, t0, m);
      if EndsAt(now, busy)(w, tk) {
        AllEndWhen(TickAt(now, busy)(w, tk), now, tk + SI, last, busy, t0, m);
      }
    }
  }

  lemma {:induction false} ElapseEndsWhen(w: Wheel, now: int, busy: nat -> set<int>, t0: int)
    requires Clocked(w, t0) && now >= w.lastTime
    ensures Ends(w, OpElapse(now, busy)) <==> PassableTo(w.due, w.n, w.n + Behind(w, now))
  {
    CatchUpTo(w, now);
    var w1 := CaughtUp(w, now);
    assert Steady(w1, t0);
    AllEndWhen(w1, now, w.lastTime + SI, w1.lastTime, busy, t0, w.n + Behind(w, now));
  }

  // No catch-up of the run drains the last top slot while a timer is due a horizon later.
  ghost predicate Passes(w: Wheel, ops: seq<Op>)
    requires Pointers(w.slot)
    decreases |ops|
  {
    ops == [] ||
    ((ops[0].OpElapse? ==> PassableTo(w.due, w.n, w.n + Behind(w, ops[0].now))) && Passes(Do(w, ops[0]), ops[1..]))
  }

  lemma {:induction false} RunEndsWhen(w: Wheel, ops: seq<Op>, t0: int, t: int)
    requires Clocked(w, t0) && w.lastTime <= t && Forward(t, ops) && AllInt64(ops) && t0 >= SI - 1
    ensures RunEnds(w, ops) <==> Passes(w, ops)
    decreases |ops|
  {
    if ops != [] {
      var op := ops[0];
      if op.OpElapse? { ElapseEndsWhen(w, op.now, op.busy, t0); }
      if Ends(w, op) {
        DoOnTime(w, op, t0, t);
        RunEndsWhen(Do(w, op), ops[1..], t0, if op.OpElapse? then op.now else t);
      }
    }
  }

  // ---- runs that a caller can make and that never end -----------------------------------------

  // The first tick that drains the last top slot.
  const LAST_SLOT: nat := 63 * 0x100_0000

  // The wheel holds one timer, in the last top slot.
  ghost predicate OneParked(w: Wheel, t: Timer) {
    Pointers(w.slot) && w.tw == map[Place(3, 63) := [t]]
  }

  // Unless it is the last slot of the top level, the slot a level turns to is empty.
  lemma {:induction false} ParkedTurn(w: Wheel, t: Timer, i: nat, tk: int)
    requires 0 < i < LEVELS && OneParked(w, t) && Turned(w.slot, w.n, i) && w.n % Unit(i) == 0
    requires Visits(Place(3, 63), w.n) ==> i < 3
    ensures var r := CascadeLevel(w, i, tk); OneParked(r, t) && Turned(r.slot, w.n, i + 1) && r.n == w.n
  {
    TurnTurns(w.slot, w.n, i);
    var w1 := Turn(w, i);
    assert At(w1.tw, Place(i, w1.slot[i])) == [];
  }

  lemma {:induction false} ParkedCascade(w: Wheel, t: Timer, i: nat, tk: int)
    requires 0 < i <= LEVELS && OneParked(w, t) && Turned(w.slot, w.n, i) && w.n % Unit(i - 1) == 0
    requires 0 < w.n < LAST_SLOT
    ensures var r := Cascade(w, i, tk); OneParked(r, t) && Turned(r.slot, w.n, LEVELS)
    decreases LEVELS - i
  {
    if i < LEVELS {
      TurnsWhen(w.n, i - 1);
      if w.slot[i - 1] == 0 {
        NotLast(w.n);
        ParkedTurn(w, t, i, tk);
        ParkedCascade(CascadeLevel(w, i, tk), t, i + 1, tk);
      } else {
        NoTurn(w.n, i);
      }
    }
  }

  lemma {:induction false} NotLast(n: nat)
    requires n < LAST_SLOT
    ensures !Visits(Place(3, 63), n)
  {
  }

  lemma {:induction false} ParkedStart(w: Wheel, t: Timer, now: int, busy: set<int>)
    requires OneParked(w, t) && Turned(w.slot, w.n, LEVELS)
    ensures var r := Trigger(Started(w), now, busy);
            OneParked(r, t) && Turned(r.slot, w.n + 1, 1) && r.n == w.n + 1
  {
    TurnTurns(w.slot, w.n + 1, 0);
  }

  lemma {:induction false} ParkedTick(w: Wheel, t: Timer, now: int, tk: int, busy: set<int>)
    requires OneParked(w, t) && Turned(w.slot, w.n, LEVELS) && w.n + 1 < LAST_SLOT
    ensures var r := Tick(w, now, tk, busy); OneParked(r, t) && Turned(r.slot, r.n, LEVELS)
  {
    ParkedStart(w, t, now, busy);
    ParkedCascade(Trigger(Started(w), now, busy), t, 1, tk);
  }

  lemma {:induction false} ParkedAtTop(w: Wheel, t: Timer, tk: int)
    requires OneParked(w, t) && Turned(w.slot, w.n, 3) && w.n == LAST_SLOT && TicksTo(t.when, tk) >= HORIZON
    ensures !CascadeEnds(w, 3, tk)
  {
    TurnTurns(w.slot, w.n, 3);
    FarInList([t], t, tk);
  }

  lemma {:induction false} ParkedStuck(w: Wheel, t: Timer, i: nat, tk: int)
    requires 0 < i < LEVELS && OneParked(w, t) && Turned(w.slot, w.n, i) && w.n == LAST_SLOT
    requires TicksTo(t.when, tk) >= HORIZON
    ensures !CascadeEnds(w, i, tk)
    decreases LEVELS - i
  {
    if i == 3 {
      ParkedAtTop(w, t, tk);
    } else {
      assert w.n % Unit(i) == 0 && w.slot[i - 1] == 0;
      ParkedTurn(w, t, i, tk);
      ParkedStuck(CascadeLevel(w, i, tk), t, i + 1, tk);
    }
  }

  lemma {:induction false} ParkedStep(w: Wheel, t: Timer, now: int, tk: int, busy: nat -> set<int>)
    requires OneParked(w, t) && Turned(w.slot, w.n, LEVELS)
    ensures w.n + 1 < LAST_SLOT ==>
            var r := TickAt(now, busy)(w, tk); OneParked(r, t) && Turned(r.slot, r.n, LEVELS) && r.n == w.n + 1
    ensures w.n + 1 == LAST_SLOT && TicksTo(t.when, tk) >= HORIZON ==> !EndsAt(now, busy)(w, tk)
  {
    if w.n + 1 < LAST_SLOT {
      ParkedTick(w, t, now, tk, busy(w.n));
    } else if w.n + 1 == LAST_SLOT && TicksTo(t.when, tk) >= HORIZON {
      ParkedStart(w, t, now, busy(w.n));
      ParkedStuck(Trigger(Started(w), now, busy(w.n)), t, 1, tk);
    }
  }

  lemma {:induction false} ParkedNeverEnds(w: Wheel, t: Timer, now: int, tk: int, last: int, busy: nat -> set<int>)
    requires OneParked(w, t) && Turned(w.slot, w.n, LEVELS) && w.n < LAST_SLOT
    requires var end := tk + SI * (LAST_SLOT - 1 - w.n); end <= last && TicksTo(t.when, end) >= HORIZON
    ensures !AllEnd(EndsAt(now, busy), TickAt(now, busy), w, tk, last)
    decreases LAST_SLOT - w.n
  {
    ParkedStep(w, t, now, tk, busy);
    if w.n + 1 < LAST_SLOT {
      ParkedNeverEnds(TickAt(now, busy)(w, tk), t, now, tk + SI, last, busy);
    }
  }

  lemma {:induction false} NewParked(now: int, when: int, data: int, sink: Sink)
    requires TicksTo(when, now) >= HORIZON
    ensures var r := New(NewWheel(now), when, data, sink);
            OneParked(r, Timer(1, when, data, sink)) && Turned(r.slot, 0, LEVELS) && r.n == 0 && r.lastTime == now
  {
    var t := Timer(1, when, data, sink);
    assert At(map[], Place(3, 63)) + [t] == [t];
  }

  lemma {:induction false} ParkedElapse(w: Wheel, t: Timer, last: int, busy: nat -> set<int>)
    requires OneParked(w, t) && Turned(w.slot, 0, LEVELS) && w.n == 0
    requires var end := w.lastTime + SI * LAST_SLOT; last >= end && TicksTo(t.when, end) >= HORIZON
    ensures !Ends(w, OpElapse(last, busy))
  {
    CatchUpTo(w, last);
    var w1 := CaughtUp(w, last);
    assert OneParked(w1, t);
    ParkedNeverEnds(w1, t, last, w.lastTime + SI, w1.lastTime, busy);
  }

  // A timer set and left alone keeps the clock busy for ever, once that much time has passed,
  // if its distance as the code computes it is beyond the horizon then and when it is set.
  lemma {:induction false} EndlessRun(now: int, when: int, data: int, sink: Sink, last: int, busy: nat -> set<int>)
    requires TicksTo(when, now) >= HORIZON && TicksTo(when, now + SI * LAST_SLOT) >= HORIZON
    requires last >= now + SI * LAST_SLOT
    ensures !RunEnds(NewWheel(now), [OpNew(when, data, sink), OpElapse(last, busy)])
  {
    var ops := [OpNew(when, data, sink), OpElapse(last, busy)];
    var w := Do(NewWheel(now), ops[0]);
    NewParked(now, when, data, sink);
    ParkedElapse(w, Timer(1, when, data, sink), last, busy);
    assert ops[1..][0] == OpElapse(last, busy);
  }

  // A deadline 2^31 ticks ahead, about 500 days, does so.
  lemma {:induction false} FarDeadline(now: int, data: int, sink: Sink, busy: nat -> set<int>)
    ensures !RunEnds(NewWheel(now), [OpNew(now + SI * 0x8000_0000, data, sink), OpElapse(now + SI * LAST_SLOT, busy)])
  {
    var when := now + SI * 0x8000_0000;
    TicksToDue(when, now, 0, now);
    TicksToDue(when, now, LAST_SLOT, now + SI * LAST_SLOT);
    EndlessRun(now, when, data, sink, now + SI * LAST_SLOT, busy);
  }

  // So does the earliest deadline there is, because its distance wraps around.
  lemma {:induction false} EarliestDeadline(now: int, data: int, sink: Sink, busy: nat -> set<int>)
    requires SI <= now < I64 - SI * (LAST_SLOT + HORIZON)
    ensures !Fits(-I64, now)
    ensures !RunEnds(NewWheel(now), [OpNew(-I64, data, sink), OpElapse(now + SI * LAST_SLOT, busy)])
  {
    EndlessRun(now, -I64, data, sink, now + SI * LAST_SLOT, busy);
  }
}
