// The timing wheel over whole runs.
module ClockRuns {
  import opened Words
  import opened ClockSpec
  import opened ClockConserve
  import opened ClockTiming

  // ---- one level of a cascade ----------------------------------------------------------

  ghost predicate LandsAt(p: Place, n: nat, d: nat, v: Place -> nat)
    requires Good(p)
  {
    n <= v(p) <= d < v(p) + 2 * Unit(p.level) && (p.level == 0 ==> v(p) == d)
  }

  // Timers placed by these pointers at levels up to i are visited on schedule.
  ghost predicate Lands(slot: seq<nat>, n: nat, v: Place -> nat, i: nat)
    requires Pointers(slot)
  {
    forall ticks: nat :: 0 < ticks < HORIZON && PlaceFor(slot, ticks).level <= i ==>
      LandsAt(PlaceFor(slot, ticks), n, n + ticks, v)
  }

  // Timers too far ahead wait in the last slot of the top level, which is visited in time.
  ghost predicate LandsFar(n: nat, v: Place -> nat) {
    n <= v(Place(3, 63)) <= n + HORIZON
  }

  // Where a timer due at tick d goes at tick n.
  lemma {:induction false} PlacedOnTime(t: Timer, d: nat, slot: seq<nat>, n: nat, v: Place -> nat, t0: int, time: int,
                                        i: nat)
    requires Pointers(slot) && Lands(slot, n, v, i) && DueTick(t.when, t0) <= d && i < LEVELS
    requires time == t0 + SI * n && Bounded(t.when, time)
    requires var ticks := TicksTo(t.when, time); var p := PlaceFor(slot, ticks);
             && (d == n + ticks || (d == n && ticks == 1))
             && p.level <= i && (ticks >= HORIZON ==> LandsFar(n, v))
    ensures var p := PlaceFor(slot, TicksTo(t.when, time)); OnTime(t, Armed(d), p, v(p), n, t0)
  {
    TicksToDue(t.when, t0, n, time);
    var ticks := TicksTo(t.when, time);
    var p := PlaceFor(slot, ticks);
    if ticks < HORIZON { assert LandsAt(p, n, n + ticks, v); }
    if p.level > 0 { SeenStays(t.when, t0, n, time, v(p)); }
  }

  ghost predicate AtLevel(i: nat, slot: seq<nat>, n: nat, v: Place -> nat)
    requires Pointers(slot) && i < LEVELS
  {
    v(Place(i, slot[i])) == n && Lands(slot, n, v, i) && (i == 3 && slot[3] != 63 ==> LandsFar(n, v))
  }

  // A timer taken from the list of level i visited at tick n is placed on schedule.
  lemma {:induction false} MovedOnTime(t: Timer, due: Due, slot: seq<nat>, n: nat, v: Place -> nat, t0: int, tk: int,
                                       i: nat)
    requires Pointers(slot) && 0 < i < LEVELS && AtLevel(i, slot, n, v)
    requires OnTime(t, due, Place(i, slot[i]), n, n, t0) && tk == t0 + SI * n
    requires i == 3 && slot[3] == 63 ==> TicksTo(t.when, tk) < HORIZON
    ensures var p := PlaceFor(slot, TicksTo(t.when, tk)); OnTime(t, due, p, v(p), n, t0)
  {
    TicksToDue(t.when, t0, n, tk);
    PlacedOnTime(t, due.tick, slot, n, v, t0, tk, i);
  }

  lemma {:induction false} MoveRuns(w: Wheel, i: nat, v: Place -> nat, t0: int, tk: int)
    requires 0 < i < LEVELS && Running(w, v, t0) && AtLevel(i, w.slot, w.n, v) && tk == t0 + SI * w.n
    requires At(w.tw, Place(i, w.slot[i])) != []
    requires i == 3 && w.slot[3] == 63 ==> TicksTo(w.tw[Place(3, 63)][0].when, tk) < HORIZON
    ensures Running(CascadeStep(w, i, tk), v, t0)
  {
    var here := Place(i, w.slot[i]);
    var t := w.tw[here][0];
    var p := PlaceFor(w.slot, TicksTo(t.when, tk));
    PopTimely(w.tw, w.due, v, w.n, t0, here);
    MovedOnTime(t, w.due[t.id], w.slot, w.n, v, t0, tk, i);
    PutTimely(w.tw[here := w.tw[here][1..]], w.due, v, w.n, t0, p, t);
    MoveConserves(w, here, p);
  }

  // While level i is drained, with the last j timers of s to go.
  ghost predicate Cascading(w: Wheel, j: nat, i: nat, slot: seq<nat>, n: nat, v: Place -> nat, t0: int, s: seq<Timer>)
    requires i < LEVELS
  {
    && Running(w, v, t0) && w.slot == slot && w.n == n
    && j <= |s| && At(w.tw, Place(i, slot[i])) == s[|s| - j..]
  }

  lemma {:induction false} CascadePops(w: Wheel, j: nat, i: nat, tk: int, s: seq<Timer>)
    requires Pointers(w.slot) && i < LEVELS && j < |s| && At(w.tw, Place(i, w.slot[i])) == s[|s| - j - 1..]
    requires !(i == 3 && w.slot[3] == 63 && Far(s, tk))
    ensures var r := CascadeStep(w, i, tk);
            r.slot == w.slot && r.n == w.n && At(r.tw, Place(i, w.slot[i])) == s[|s| - j..]
    ensures i == 3 && w.slot[3] == 63 ==> TicksTo(w.tw[Place(3, 63)][0].when, tk) < HORIZON
  {
    assert TicksTo(s[|s| - j - 1].when, tk) >= HORIZON ==> Far(s, tk);
    CascadeShrinks(w, i, tk);
  }

  lemma {:induction false} CascadeStepOnTime(w: Wheel, j: nat, i: nat, v: Place -> nat, t0: int, tk: int, s: seq<Timer>)
    requires 0 < i < LEVELS && Cascading(w, j + 1, i, w.slot, w.n, v, t0, s) && AtLevel(i, w.slot, w.n, v)
    requires tk == t0 + SI * w.n && !(i == 3 && w.slot[3] == 63 && Far(s, tk))
    ensures Cascading(CascadeStep(w, i, tk), j, i, w.slot, w.n, v, t0, s)
  {
    CascadePops(w, j, i, tk, s);
    MoveRuns(w, i, v, t0, tk);
  }

  lemma {:induction false} CascadeStepsOnTime(w: Wheel, i: nat, v: Place -> nat, t0: int, tk: int)
    requires 0 < i < LEVELS && Running(w, v, t0) && AtLevel(i, w.slot, w.n, v) && !Stuck(w, i, tk)
    requires tk == t0 + SI * w.n
    ensures var s := At(w.tw, Place(i, w.slot[i])); Cascading(CascadeSteps(w, i, tk, |s|), 0, i, w.slot, w.n, v, t0, s)
  {
    var s := At(w.tw, Place(i, w.slot[i]));
    var P := (x: Wheel, j: nat) => Cascading(x, j, i, w.slot, w.n, v, t0, s);
    forall x: Wheel, j: nat | Pointers(x.slot) && P(x, j + 1) ensures P(CascadeStep(x, i, tk), j) {
      CascadeStepOnTime(x, j, i, v, t0, tk, s);
    }
    CascadeInduction(P, w, i, tk, |s|);
  }

  // ---- a whole tick ----------------------------------------------------------------------

  // When each list is drained next, where tick n has drained the levels below i so far.
  ghost function Schedule(n: nat, i: nat): Place -> nat {
    p => if Good(p) then VisitFrom(p, n, i) else 0
  }

  // The pointers of the levels below i are those of tick n, the others still those before.
  ghost predicate Turned(slot: seq<nat>, n: nat, i: nat) {
    && |slot| == LEVELS
    && (forall l :: 0 <= l < LEVELS && l < i ==> slot[l] == Digit(n, l))
    && (i < LEVELS ==> n > 0 && forall l :: i <= l < LEVELS ==> slot[l] == Digit(n - 1, l))
  }

  lemma {:induction false} TurnTurns(slot: seq<nat>, n: nat, i: nat)
    requires i < LEVELS && Turned(slot, n, i) && n % Unit(i) == 0
    ensures Turned(slot[i := (slot[i] + 1) % Slots(i)], n, i + 1)
  {
    DigitTurns(n, i);
  }

  lemma {:induction false} LevelReady(slot: seq<nat>, n: nat, i: nat)
    requires 0 < i < LEVELS && Turned(slot, n, i + 1) && n % Unit(i) == 0 && Pointers(slot)
    ensures AtLevel(i, slot, n, Schedule(n, i))
  {
    var v := Schedule(n, i);
    forall ticks: nat | 0 < ticks < HORIZON && PlaceFor(slot, ticks).level <= i
      ensures LandsAt(PlaceFor(slot, ticks), n, n + ticks, v)
    {
      PlacedAhead(slot, ticks, n);
    }
    if i == 3 && slot[3] != 63 { VisitedSoon(Place(3, 63), n); }
  }

  // Once the list of level i that tick n visits is empty, the level is done.
  lemma {:induction false} LevelDone(w: Wheel, i: nat, t0: int)
    requires i < LEVELS && Running(w, Schedule(w.n, i), t0) && w.slot[i] == Digit(w.n, i)
    requires At(w.tw, Place(i, w.slot[i])) == []
    ensures Running(w, Schedule(w.n, i + 1), t0)
  {
    var v, v1 := Schedule(w.n, i), Schedule(w.n, i + 1);
    forall p | p in w.tw ensures AllOnTime(w.tw[p], w.due, p, v1(p), w.n, t0) {
      if p.level == i && Visits(p, w.n) { assert p == Place(i, w.slot[i]); } else { assert v1(p) == v(p); }
    }
  }

  lemma {:induction false} CascadeLevelOnTime(w: Wheel, i: nat, t0: int, tk: int)
    requires 0 < i < LEVELS && Running(w, Schedule(w.n, i), t0) && Turned(w.slot, w.n, i)
    requires w.n % Unit(i) == 0 && tk == t0 + SI * w.n && !Stuck(Turn(w, i), i, tk)
    ensures var r := CascadeLevel(w, i, tk); Running(r, Schedule(w.n, i + 1), t0) && Turned(r.slot, w.n, i + 1)
  {
    var w1 := Turn(w, i);
    TurnTurns(w.slot, w.n, i);
    LevelReady(w1.slot, w.n, i);
    CascadeStepsOnTime(w1, i, Schedule(w.n, i), t0, tk);
    LevelDone(CascadeLevel(w, i, tk), i, t0);
  }

  // Levels that do not turn at tick n are done.
  lemma {:induction false} RestDone(w: Wheel, i: nat, t0: int)
    requires 0 < i < LEVELS && Running(w, Schedule(w.n, i), t0) && Turned(w.slot, w.n, i) && w.n % Unit(i) != 0
    ensures Running(w, Schedule(w.n, LEVELS), t0) && Turned(w.slot, w.n, LEVELS)
  {
    NoTurn(w.n, i);
    forall p | p in w.tw ensures AllOnTime(w.tw[p], w.due, p, Schedule(w.n, LEVELS)(p), w.n, t0) {
      assert Schedule(w.n, LEVELS)(p) == Schedule(w.n, i)(p);
    }
  }

  lemma {:induction false} NoTurn(n: nat, i: nat)
    requires 0 < i < LEVELS && n > 0 && n % Unit(i) != 0
    ensures forall l :: i <= l < LEVELS ==> n % Unit(l) != 0 && Digit(n, l) == Digit(n - 1, l)
    decreases LEVELS - i
  {
    DigitTurns(n, i);
    if i + 1 < LEVELS {
      TurnsWhen(n, i);
      NoTurn(n, i + 1);
    }
  }

  lemma {:induction false} CascadeOnTime(w: Wheel, i: nat, t0: int, tk: int)
    requires 0 < i <= LEVELS && Running(w, Schedule(w.n, i), t0) && Turned(w.slot, w.n, i)
    requires w.n % Unit(i - 1) == 0 && tk == t0 + SI * w.n && CascadeEnds(w, i, tk)
    ensures var r := Cascade(w, i, tk); Running(r, Schedule(w.n, LEVELS), t0) && Turned(r.slot, w.n, LEVELS)
    decreases LEVELS - i
  {
    if i < LEVELS {
      TurnsWhen(w.n, i - 1);
      if w.slot[i - 1] == 0 {
        CascadeLevelOnTime(w, i, t0, tk);
        CascadeOnTime(CascadeLevel(w, i, tk), i + 1, t0, tk);
      } else {
        RestDone(w, i, t0);
      }
    }
  }

  // Between ticks: t0 is the time the clock was started.
  ghost predicate Steady(w: Wheel, t0: int) {
    && Pointers(w.slot)
    && forall k {:trigger Asked(k)} :: Asked(k) ==>
         Running(w, Schedule(w.n, LEVELS), t0) && Turned(w.slot, w.n, LEVELS)
  }

  lemma {:induction false} StartOnTime(w: Wheel, t0: int)
    requires Steady(w, t0)
    ensures var r := Started(w);
            Running(r, Schedule(r.n, 0), t0) && Turned(r.slot, r.n, 1) && AtBottom(r.slot, r.n, Schedule(r.n, 0))
  {
    assert Asked(0);
    var r := Started(w);
    TurnTurns(w.slot, r.n, 0);
    NextSlot(r.n);
    forall p | p in w.tw ensures AllOnTime(w.tw[p], w.due, p, Schedule(r.n, 0)(p), r.n, t0) {
      VisitSteps(p, r.n);
      assert Schedule(r.n, 0)(p) == Schedule(w.n, LEVELS)(p);
    }
    assert Conserved(r);
  }

  lemma {:induction false} NextSlot(n: nat)
    ensures var p := Place(0, (Digit(n, 0) + 1) % 1024); VisitFrom(p, n, 0) == n + 1
  {
    Ahead(n, 1, 1024);
  }

  lemma {:induction false} TriggeredOnTime(w: Wheel, now: int, busy: set<int>, t0: int)
    requires Steady(w, t0) && now >= t0 + SI * (w.n + 1)
    ensures var r := Trigger(Started(w), now, busy);
            Running(r, Schedule(r.n, 1), t0) && Turned(r.slot, r.n, 1) && r.n == w.n + 1
  {
    var s := Started(w);
    StartOnTime(w, t0);
    TriggerOnTime(s, now, busy, Schedule(s.n, 0), t0);
    LevelDone(Trigger(s, now, busy), 0, t0);
  }

  lemma {:induction false} TickOnTime(w: Wheel, now: int, tk: int, busy: set<int>, t0: int)
    requires Steady(w, t0) && now >= tk == t0 + SI * (w.n + 1) && TickEnds(w, now, tk, busy)
    ensures var r := Tick(w, now, tk, busy); Steady(r, t0) && r.n == w.n + 1
  {
    TriggeredOnTime(w, now, busy, t0);
    CascadeOnTime(Trigger(Started(w), now, busy), 1, t0, tk);
  }

  lemma {:induction false} RepeatOnTime(P: (Wheel, int) -> bool, ok: (Wheel, int) -> bool, step: Step, w: Wheel,
                                        tk: int, last: int)
    requires P(w, tk) && AllEnd(ok, step, w, tk, last)
    requires forall x: Wheel, t: int :: P(x, t) && t <= last && ok(x, t) ==> P(step(x, t), t + SI)
    ensures exists t :: P(Repeat(step, w, tk, last), t) && last < t && (t == tk || t <= last + SI)
    decreases last - tk
  {
    if tk <= last {
      RepeatOnTime(P, ok, step, step(w, tk), tk + SI, last);
      var t :| P(Repeat(step, step(w, tk), tk + SI, last), t) && last < t && (t == tk + SI || t <= last + SI);
      assert P(Repeat(step, w, tk, last), t);
    } else {
      assert P(Repeat(step, w, tk, last), tk);
    }
  }

  ghost predicate AtTime(w: Wheel, t: int, t0: int) {
    Steady(w, t0) && t == t0 + SI * (w.n + 1)
  }

  lemma {:induction false} TicksOnTime(w: Wheel, now: int, tk: int, last: int, busy: nat -> set<int>, t0: int)
    returns (t: int)
    requires AtTime(w, tk, t0) && now >= last && tk <= last + SI
    requires AllEnd(EndsAt(now, busy), TickAt(now, busy), w, tk, last)
    ensures AtTime(Repeat(TickAt(now, busy), w, tk, last), t, t0) && last < t <= last + SI
  {
    var ok, step := EndsAt(now, busy), TickAt(now, busy);
    var P := (x: Wheel, t: int) => AtTime(x, t, t0);
    forall x: Wheel, t: int | P(x, t) && t <= last && ok(x, t) ensures P(step(x, t), t + SI) {
      TickOnTime(x, now, t, busy(x.n), t0);
    }
    RepeatOnTime(P, ok, step, w, tk, last);
    t :| P(Repeat(step, w, tk, last), t) && last < t && (t == tk || t <= last + SI);
  }

  // ---- the clock's operations --------------------------------------------------------------

  ghost predicate Clocked(w: Wheel, t0: int) {
    Steady(w, t0) && w.lastTime == t0 + SI * w.n
  }

  lemma {:induction false} SteadyLands(slot: seq<nat>, n: nat)
    requires Turned(slot, n, LEVELS) && Pointers(slot)
    ensures Lands(slot, n, Schedule(n, LEVELS), 3) && LandsFar(n, Schedule(n, LEVELS))
  {
    forall ticks: nat | 0 < ticks < HORIZON && PlaceFor(slot, ticks).level <= 3
      ensures LandsAt(PlaceFor(slot, ticks), n, n + ticks, Schedule(n, LEVELS))
    {
      PlacedAhead(slot, ticks, n);
    }
    VisitedSoon(Place(3, 63), n);
  }

  // Where a timer goes that is set between ticks.
  lemma {:induction false} SetOnTime(t: Timer, slot: seq<nat>, n: nat, t0: int, time: int)
    requires Pointers(slot) && Turned(slot, n, LEVELS) && time == t0 + SI * n && Bounded(t.when, time)
    ensures var ticks := TicksTo(t.when, time); var p := PlaceFor(slot, ticks);
            OnTime(t, Armed(n + ticks), p, Schedule(n, LEVELS)(p), n, t0)
  {
    SteadyLands(slot, n);
    TicksToDue(t.when, t0, n, time);
    PlacedOnTime(t, n + TicksTo(t.when, time), slot, n, Schedule(n, LEVELS), t0, time, 3);
  }

  // Adding a timer that is in no list.
  lemma {:induction false} AddTimely(w: Wheel, tw: map<Place, seq<Timer>>, due: map<int, Due>, t: Timer, t0: int)
    requires Pointers(w.slot) && Turned(w.slot, w.n, LEVELS)
    requires w.lastTime == t0 + SI * w.n && Bounded(t.when, w.lastTime)
    requires Timely(tw, due, Schedule(w.n, LEVELS), w.n, t0) && forall p, u :: In(tw, p, u) ==> u.id != t.id
    ensures var ticks := TicksTo(t.when, w.lastTime); var p := PlaceFor(w.slot, ticks);
            Timely(tw[p := At(tw, p) + [t]], due[t.id := Armed(w.n + ticks)], Schedule(w.n, LEVELS), w.n, t0)
  {
    var ticks := TicksTo(t.when, w.lastTime);
    SetOnTime(t, w.slot, w.n, t0, w.lastTime);
    PutAnew(tw, due, Schedule(w.n, LEVELS), w.n, t0, PlaceFor(w.slot, ticks), t, Armed(w.n + ticks));
  }

  lemma {:induction false} PutAnew(tw: map<Place, seq<Timer>>, due: map<int, Due>, v: Place -> nat, n: nat, t0: int,
                                   p: Place, t: Timer, d: Due)
    requires Timely(tw, due, v, n, t0) && Good(p) && forall q, u :: In(tw, q, u) ==> u.id != t.id
    requires OnTime(t, d, p, v(p), n, t0)
    ensures Timely(tw[p := At(tw, p) + [t]], due[t.id := d], v, n, t0)
  {
    OtherDue(tw, due, due[t.id := d], v, n, t0, t.id);
    PutTimely(tw, due[t.id := d], v, n, t0, p, t);
  }

  lemma {:induction false} DelTimely(w: Wheel, id: int, v: Place -> nat, t0: int)
    requires Listed(w.tw, w.locs, {}) && Timely(w.tw, w.due, v, w.n, t0)
    ensures Timely(Del(w, id).tw, w.due, v, w.n, t0) && forall p, u :: In(Del(w, id).tw, p, u) ==> u.id != id
  {
    forall p | p in w.tw ensures forall t :: t in Without(w.tw[p], id) <==> t in w.tw[p] && t.id != id {
      assert forall t :: t in w.tw[p] ==> In(w.tw, p, t);
      InWithout(w.tw[p], id);
    }
  }

  lemma {:induction false} CancelOnTime(w: Wheel, id: int, t0: int)
    requires Clocked(w, t0)
    ensures Clocked(Cancel(w, id), t0)
  {
    assert Asked(0);
    var v := Schedule(w.n, LEVELS);
    CancelConserves(w, id);
    DelTimely(w, id, v, t0);
    OtherDue(Del(w, id).tw, w.due, w.due - {id}, v, w.n, t0, id);
  }

  // r is w with the timer of this id taken out and added again for another deadline.
  ghost predicate Updated(w: Wheel, tw: map<Place, seq<Timer>>, t: Timer, r: Wheel)
    requires Pointers(w.slot)
  {
    var ticks := TicksTo(t.when, w.lastTime); var p := PlaceFor(w.slot, ticks);
    && r.tw == tw[p := At(tw, p) + [t]] && r.due == w.due[t.id := Armed(w.n + ticks)]
    && r.n == w.n && r.slot == w.slot && r.log == w.log && r.lastTime == w.lastTime
  }

  lemma {:induction false} UpdateIs(w: Wheel, id: int, when: int)
    requires Pointers(w.slot) && id in w.locs && w.locs[id].id == id
    ensures Updated(w, Del(w, id).tw, w.locs[id].(when := when), Update(w, id, when))
  {
  }

  lemma {:induction false} UpdateTimely(w: Wheel, tw: map<Place, seq<Timer>>, t: Timer, r: Wheel, t0: int)
    requires Pointers(w.slot) && Turned(w.slot, w.n, LEVELS) && w.lastTime == t0 + SI * w.n
    requires Updated(w, tw, t, r) && Bounded(t.when, w.lastTime)
    requires Timely(tw, w.due, Schedule(w.n, LEVELS), w.n, t0) && forall p, u :: In(tw, p, u) ==> u.id != t.id
    ensures Timely(r.tw, r.due, Schedule(r.n, LEVELS), r.n, t0)
  {
    AddTimely(w, tw, w.due, t, t0);
  }

  lemma {:induction false} NewIs(w: Wheel, when: int, data: int, sink: Sink)
    requires Pointers(w.slot)
    ensures Updated(w, w.tw, Timer(w.genId + 1, when, data, sink), New(w, when, data, sink))
  {
  }

  lemma {:induction false} NoneNew(w: Wheel)
    requires Conserved(w)
    ensures forall p, u :: In(w.tw, p, u) ==> u.id != w.genId + 1
  {
  }

  // r is a steady wheel again.
  lemma {:induction false} UpdatedSteady(w: Wheel, tw: map<Place, seq<Timer>>, t: Timer, r: Wheel, t0: int)
    requires Pointers(w.slot) && Turned(w.slot, w.n, LEVELS) && Punctual(w.log) && Updated(w, tw, t, r)
    requires Conserved(r) && Timely(r.tw, r.due, Schedule(r.n, LEVELS), r.n, t0)
    ensures Steady(r, t0)
  {
  }

  lemma {:induction false} NewOnTime(w: Wheel, when: int, data: int, sink: Sink, t0: int)
    requires Clocked(w, t0) && Bounded(when, w.lastTime)
    ensures Clocked(New(w, when, data, sink), t0)
  {
    assert Asked(0);
    var t, r := Timer(w.genId + 1, when, data, sink), New(w, when, data, sink);
    NewConserves(w, when, data, sink);
    NewIs(w, when, data, sink);
    NoneNew(w);
    UpdateTimely(w, w.tw, t, r, t0);
    UpdatedSteady(w, w.tw, t, r, t0);
  }

  lemma {:induction false} UpdateOnTime(w: Wheel, id: int, when: int, t0: int)
    requires Clocked(w, t0) && (id in w.locs ==> Bounded(when, w.lastTime))
    ensures Clocked(Update(w, id, when), t0)
  {
    assert Asked(0);
    if id in w.locs {
      UpdateConserves(w, id, when);
      UpdateIs(w, id, when);
      DelTimely(w, id, Schedule(w.n, LEVELS), t0);
      UpdateTimely(w, Del(w, id).tw, w.locs[id].(when := when), Update(w, id, when), t0);
      UpdatedSteady(w, Del(w, id).tw, w.locs[id].(when := when), Update(w, id, when), t0);
    }
  }

  lemma {:induction false} CatchUpTo(w: Wheel, now: int)
    requires now >= w.lastTime
    ensures w.lastTime <= CaughtUp(w, now).lastTime <= now < CaughtUp(w, now).lastTime + SI
    ensures CaughtUp(w, now).lastTime == w.lastTime + SI * Behind(w, now) && Behind(w, now) >= 0
  {
  }

  lemma {:induction false} TicksLast(w: Wheel, now: int, tk: int, last: int, busy: nat -> set<int>, t0: int, b: nat)
    requires AtTime(w, tk, t0) && now >= last == w.lastTime && last == tk - SI + SI * b
    requires AllEnd(EndsAt(now, busy), TickAt(now, busy), w, tk, last)
    ensures Clocked(Repeat(TickAt(now, busy), w, tk, last), t0)
    ensures Repeat(TickAt(now, busy), w, tk, last).lastTime == last
  {
    var t := TicksOnTime(w, now, tk, last, busy, t0);
    TicksOnly(w, now, tk, last, busy);
  }

  lemma {:induction false} ElapseFrom(w: Wheel, w1: Wheel, now: int, busy: nat -> set<int>, t0: int, b: nat)
    requires Clocked(w, t0) && w1 == w.(lastTime := w.lastTime + SI * b) && now >= w1.lastTime
    requires AllEnd(EndsAt(now, busy), TickAt(now, busy), w1, w.lastTime + SI, w1.lastTime)
    ensures var r := Repeat(TickAt(now, busy), w1, w.lastTime + SI, w1.lastTime);
            Clocked(r, t0) && r.lastTime == w1.lastTime
  {
    assert Steady(w1, t0);
    TicksLast(w1, now, w.lastTime + SI, w1.lastTime, busy, t0, b);
  }

  lemma {:induction false} ElapseOnTime(w: Wheel, now: int, busy: nat -> set<int>, t0: int)
    requires Clocked(w, t0) && now >= w.lastTime && Ends(w, OpElapse(now, busy))
    ensures Clocked(Elapse(w, now, busy), t0) && Elapse(w, now, busy).lastTime <= now
  {
    CatchUpTo(w, now);
    var w1 := CaughtUp(w, now);
    var r := ElapseIs(w, w1, now, busy);
    ElapseFrom(w, w1, now, busy, t0, Behind(w, now));
  }

  lemma {:induction false} ElapseIs(w: Wheel, w1: Wheel, now: int, busy: nat -> set<int>) returns (r: Wheel)
    requires Pointers(w.slot) && w1 == CaughtUp(w, now) && Ends(w, OpElapse(now, busy))
    ensures AllEnd(EndsAt(now, busy), TickAt(now, busy), w1, w.lastTime + SI, w1.lastTime)
    ensures r == Repeat(TickAt(now, busy), w1, w.lastTime + SI, w1.lastTime) && r == Elapse(w, now, busy)
  {
    r := Elapse(w, now, busy);
  }

  // ---- whole runs ------------------------------------------------------------------------------

  // The readings of the clock never go back, from the reading t on.
  ghost predicate Forward(t: int, ops: seq<Op>)
    decreases |ops|
  {
    ops == [] ||
    if ops[0].OpElapse? then t <= ops[0].now && Forward(ops[0].now, ops[1..]) else Forward(t, ops[1..])
  }

  // A deadline set by this operation is an int64 value, as its type has it.
  predicate SetsInt64(op: Op) {
    op.OpNew? || op.OpUpdate? ==> -I64 <= op.when < I64
  }

  ghost predicate AllInt64(ops: seq<Op>) {
    forall k :: 0 <= k < |ops| ==> SetsInt64(ops[k])
  }

  lemma {:induction false} DoOnTime(w: Wheel, op: Op, t0: int, t: int)
    requires Clocked(w, t0) && w.lastTime <= t && (op.OpElapse? ==> t <= op.now)
    requires Ends(w, op) && SetsInt64(op) && t0 >= SI - 1
    ensures Clocked(Do(w, op), t0) && Do(w, op).lastTime <= if op.OpElapse? then op.now else t
  {
    match op
    case OpNew(when, data, sink) => NewOnTime(w, when, data, sink, t0);
    case OpCancel(id) => CancelOnTime(w, id, t0);
    case OpUpdate(id, when) => UpdateOnTime(w, id, when, t0);
    case OpElapse(now, busy) => ElapseOnTime(w, now, busy, t0);
  }

  lemma {:induction false} RunOnTime(w: Wheel, ops: seq<Op>, t0: int, t: int)
    requires Clocked(w, t0) && w.lastTime <= t && Forward(t, ops) && RunEnds(w, ops)
    requires AllInt64(ops) && t0 >= SI - 1
    ensures Clocked(Run(w, ops), t0)
    decreases |ops|
  {
    if ops != [] {
      DoOnTime(w, ops[0], t0, t);
      RunOnTime(Do(w, ops[0]), ops[1..], t0, if ops[0].OpElapse? then ops[0].now else t);
    }
  }

  // Accuracy: in every run whose clock never goes back, whatever the deadlines and whichever
  // receivers are full, each timer is first tried on its due tick or the next, and none is
  // overdue.
  lemma {:induction false} Accuracy(now: int, ops: seq<Op>)
    requires now >= SI - 1 && Forward(now, ops) && RunEnds(NewWheel(now), ops) && AllInt64(ops)
    ensures var w := Run(NewWheel(now), ops);
            && Punctual(w.log)
            && (forall id :: id in w.locs ==> id in w.due && (w.due[id].Armed? ==> w.n <= w.due[id].tick))
            && w.lastTime == now + SI * w.n
            && forall l :: 0 <= l < LEVELS ==> w.slot[l] == Digit(w.n, l)
  {
    assert Asked(0);
    RunOnTime(NewWheel(now), ops, now, now);
    var w := Run(NewWheel(now), ops);
    forall id | id in w.locs && id in w.due && w.due[id].Armed? ensures w.n <= w.due[id].tick {
      var p :| In(w.tw, p, w.locs[id]);
      NextVisitExact(p, w.n);
    }
  }

  // The due tick is the deadline, as the int64 distance has it, rounded up to a tick, or the
  // next tick if that is past; it is the deadline itself exactly if the distance fits.
  lemma {:induction false} DueTicks(w: Wheel, when: int, data: int, sink: Sink, id: int, t0: int)
    requires Pointers(w.slot) && w.lastTime == t0 + SI * w.n && Bounded(when, w.lastTime)
    ensures Seen(when, w.lastTime) == when <==> Fits(when, w.lastTime)
    ensures var d := DueTick(Seen(when, w.lastTime), t0); var due := Armed(if d <= w.n then w.n + 1 else d);
            && New(w, when, data, sink).due[w.genId + 1] == due
            && (id in w.locs ==> Update(w, id, when).due[id] == due)
  {
    TicksToDue(when, t0, w.n, w.lastTime);
  }

  // ---- within the horizon every tick ends -------------------------------------------------------

  ghost predicate Near(due: map<int, Due>, n: nat) {
    forall id :: id in due && due[id].Armed? ==> due[id].tick < n + HORIZON
  }

  // Tick m does not drain the last top slot, or no timer is too far ahead then.
  ghost predicate Passable(due: map<int, Due>, m: nat) {
    Visits(Place(3, 63), m) ==> Near(due, m)
  }

  lemma {:induction false} NearTicks(t: Timer, due: Due, p: Place, n: nat, t0: int, tk: int)
    requires Good(p) && p.level > 0 && OnTime(t, due, p, n, n, t0) && (due.Armed? ==> due.tick < n + HORIZON)
    requires tk == t0 + SI * n
    ensures TicksTo(t.when, tk) < HORIZON
  {
    TicksToDue(t.when, t0, n, tk);
  }

  lemma {:induction false} NearNotStuck(w: Wheel, i: nat, t0: int, tk: int)
    requires 0 < i < LEVELS && Running(w, Schedule(w.n, i), t0) && Turned(w.slot, w.n, i) && w.n % Unit(i) == 0
    requires Passable(w.due, w.n) && tk == t0 + SI * w.n
    ensures !Stuck(Turn(w, i), i, tk)
  {
    TurnTurns(w.slot, w.n, i);
    if i == 3 && Digit(w.n, 3) == 63 {
      assert Near(w.due, w.n);
      var here := Place(3, 63);
      var s := At(w.tw, here);
      forall k | 0 <= k < |s| ensures TicksTo(s[k].when, tk) < HORIZON {
        assert s[k] in w.tw[here];
        NearTicks(s[k], w.due[s[k].id], here, w.n, t0, tk);
      }
    }
  }

  lemma {:induction false} NearCascadeEnds(w: Wheel, i: nat, t0: int, tk: int)
    requires 0 < i <= LEVELS && Running(w, Schedule(w.n, i), t0) && Turned(w.slot, w.n, i)
    requires w.n % Unit(i - 1) == 0 && tk == t0 + SI * w.n && Passable(w.due, w.n)
    ensures CascadeEnds(w, i, tk)
    decreases LEVELS - i
  {
    if i < LEVELS && w.slot[i - 1] == 0 {
      TurnsWhen(w.n, i - 1);
      NearNotStuck(w, i, t0, tk);
      CascadeLevelOnTime(w, i, t0, tk);
      NearCascadeEnds(CascadeLevel(w, i, tk), i + 1, t0, tk);
    }
  }

  lemma {:induction false} PassableStill(due: map<int, Due>, due1: map<int, Due>, m: nat)
    requires Passable(due, m) && NoneArmed(due, due1)
    ensures Passable(due1, m)
  {
  }

  lemma {:induction false} PassableTickEnds(w: Wheel, now: int, tk: int, busy: set<int>, t0: int)
    requires Steady(w, t0) && now >= tk == t0 + SI * (w.n + 1) && Passable(w.due, w.n + 1)
    ensures TickEnds(w, now, tk, busy)
  {
    TriggeredOnTime(w, now, busy, t0);
    var r := Trigger(Started(w), now, busy);
    PassableStill(w.due, r.due, w.n + 1);
    NearCascadeEnds(r, 1, t0, tk);
  }

  lemma {:induction false} AllEndIf(P: (Wheel, int) -> bool, ok: (Wheel, int) -> bool, step: Step, w: Wheel, tk: int,
                                    last: int)
    requires P(w, tk)
    requires forall x: Wheel, t: int :: P(x, t) && t <= last ==> ok(x, t) && P(step(x, t), t + SI)
    ensures AllEnd(ok, step, w, tk, last)
    decreases last - tk
  {
    if tk <= last {
      AllEndIf(P, ok, step, step(w, tk), tk + SI, last);
    }
  }

  ghost predicate NearTime(w: Wheel, t: int, t0: int) {
    AtTime(w, t, t0) && Near(w.due, w.n)
  }

  lemma {:induction false} NearStep(w: Wheel, t: int, now: int, busy: nat -> set<int>, t0: int)
    requires NearTime(w, t, t0) && now >= t
    ensures EndsAt(now, busy)(w, t) && NearTime(TickAt(now, busy)(w, t), t + SI, t0)
  {
    PassableTickEnds(w, now, t, busy(w.n), t0);
    TickOnTime(w, now, t, busy(w.n), t0);
  }

  lemma {:induction false} NearAllEnd(w: Wheel, now: int, tk: int, last: int, busy: nat -> set<int>, t0: int)
    requires NearTime(w, tk, t0) && now >= last
    ensures AllEnd(EndsAt(now, busy), TickAt(now, busy), w, tk, last)
  {
    var ok, step := EndsAt(now, busy), TickAt(now, busy);
    var P := (x: Wheel, t: int) => NearTime(x, t, t0);
    forall x: Wheel, t: int | P(x, t) && t <= last ensures ok(x, t) && P(step(x, t), t + SI) {
      NearStep(x, t, now, busy, t0);
    }
    AllEndIf(P, ok, step, w, tk, last);
  }

  lemma {:induction false} NearElapseEnds(w: Wheel, now: int, busy: nat -> set<int>, t0: int)
    requires Clocked(w, t0) && now >= w.lastTime && Near(w.due, w.n)
    ensures Ends(w, OpElapse(now, busy))
  {
    CatchUpTo(w, now);
    var w1 := CaughtUp(w, now);
    assert Steady(w1, t0);
    NearAllEnd(w1, now, w.lastTime + SI, w1.lastTime, busy, t0);
  }

  predicate WithinOp(w: Wheel, op: Op) {
    op.OpNew? || (op.OpUpdate? && op.id in w.locs) ==>
      TicksTo(op.when, w.lastTime) < HORIZON
  }

  // Every timer is set for less than the horizon ahead.
  ghost predicate Within(w: Wheel, ops: seq<Op>)
    requires Pointers(w.slot)
    decreases |ops|
  {
    ops == [] ||
    (WithinOp(w, ops[0]) && Within(Do(w, ops[0]), ops[1..]))
  }

  lemma {:induction false} NearElapse(w: Wheel, now: int, busy: nat -> set<int>, t0: int)
    requires Clocked(w, t0) && Near(w.due, w.n) && now >= w.lastTime && Ends(w, OpElapse(now, busy))
    ensures var r := Elapse(w, now, busy); Near(r.due, r.n)
  {
    var w1 := CaughtUp(w, now);
    assert Elapse(w, now, busy).n >= w.n by {
      ElapseOnTime(w, now, busy, t0);
      CatchUpTo(w, now);
      TicksOnly(w1, now, w.lastTime + SI, w1.lastTime, busy);
    }
    TicksOnly(w1, now, w.lastTime + SI, w1.lastTime, busy);
  }

  lemma {:induction false} NearStays(w: Wheel, op: Op)
    requires Pointers(w.slot) && Near(w.due, w.n) && !op.OpElapse? && WithinOp(w, op)
    ensures Near(Do(w, op).due, Do(w, op).n)
  {
  }

  // Draining terminates: no tick of a run within the horizon goes on for ever.
  lemma {:induction false} HorizonEnds(w: Wheel, ops: seq<Op>, t0: int, t: int)
    requires Clocked(w, t0) && w.lastTime <= t && Forward(t, ops) && Near(w.due, w.n) && Within(w, ops)
    requires AllInt64(ops) && t0 >= SI - 1
    ensures RunEnds(w, ops)
    decreases |ops|
  {
    if ops != [] {
      var op := ops[0];
      if op.OpElapse? {
        NearElapseEnds(w, op.now, op.busy, t0);
        NearElapse(w, op.now, op.busy, t0);
      } else {
        NearStays(w, op);
      }
      DoOnTime(w, op, t0, t);
      HorizonEnds(Do(w, op), ops[1..], t0, if op.OpElapse? then op.now else t);
    }
  }

  lemma {:induction false} AccuracyWithinHorizon(now: int, ops: seq<Op>)
    requires now >= SI - 1 && Forward(now, ops) && Within(NewWheel(now), ops) && AllInt64(ops)
    ensures RunEnds(NewWheel(now), ops) && Punctual(Run(NewWheel(now), ops).log)
  {
    HorizonEnds(NewWheel(now), ops, now, now);
    Accuracy(now, ops);
  }
}
