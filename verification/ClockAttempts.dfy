// Which delivery attempts the timing wheel makes, and which succeed.
module ClockAttempts {
  import opened Words
  import opened ClockSpec
  import opened ClockConserve
  import opened ClockTiming
  import opened ClockRuns

  // ---- one attempt ---------------------------------------------------------------------

  // An attempt made at the reading now: the deadline is not after it, and the timer is delivered if
  // and only if it goes into a batch or its receiver is not full at that tick.
  ghost predicate Fair(e: Attempt, now: int, busy: nat -> set<int>) {
    && e.now == now && e.timer.when <= now && e.tick > 0
    && (e.sent <==> e.timer.sink.Batch? || e.timer.id !in busy(e.tick - 1))
  }

  // All attempts made since w are fair.
  ghost predicate FairSince(w: Wheel, r: Wheel, now: int, busy: nat -> set<int>) {
    w.log <= r.log && forall k :: |w.log| <= k < |r.log| ==> Fair(r.log[k], now, busy)
  }

  lemma {:induction false} FairOn(a: Wheel, b: Wheel, c: Wheel, now: int, busy: nat -> set<int>)
    requires FairSince(a, b, now, busy) && FairSince(b, c, now, busy)
    ensures FairSince(a, c, now, busy)
  {
    assert forall k :: 0 <= k < |b.log| ==> c.log[k] == b.log[k];
  }

  lemma {:induction false} StepFair(w: Wheel, now: int, busy: nat -> set<int>)
    requires Pointers(w.slot) && w.n > 0
    ensures FairSince(w, TriggerStep(w, now, busy(w.n - 1)), now, busy)
  {
  }

  lemma {:induction false} StepsFair(w: Wheel, now: int, busy: nat -> set<int>, k: nat)
    requires Pointers(w.slot) && w.n > 0
    ensures FairSince(w, TriggerSteps(w, now, busy(w.n - 1), k), now, busy)
    decreases k
  {
    if k > 0 {
      var w1 := TriggerStep(w, now, busy(w.n - 1));
      StepFair(w, now, busy);
      StepsFair(w1, now, busy, k - 1);
      FairOn(w, w1, TriggerSteps(w1, now, busy(w.n - 1), k - 1), now, busy);
    }
  }

  lemma {:induction false} TickFair(w: Wheel, now: int, tk: int, busy: nat -> set<int>)
    requires Pointers(w.slot)
    ensures FairSince(w, Tick(w, now, tk, busy(w.n)), now, busy)
  {
    var s := Started(w);
    StepsFair(s, now, busy, |At(s.tw, Place(0, s.slot[0]))|);
  }

  lemma {:induction false} TicksFair(w: Wheel, now: int, tk: int, last: int, busy: nat -> set<int>)
    requires Pointers(w.slot)
    ensures FairSince(w, Repeat(TickAt(now, busy), w, tk, last), now, busy)
    decreases last - tk
  {
    if tk <= last {
      var w1 := TickAt(now, busy)(w, tk);
      TickFair(w, now, tk, busy);
      TicksFair(w1, now, tk + SI, last, busy);
      FairOn(w, w1, Repeat(TickAt(now, busy), w1, tk + SI, last), now, busy);
    }
  }

  // A catch-up makes no attempt before its deadline, and delivers exactly what it can.
  lemma {:induction false} ElapseFair(w: Wheel, now: int, busy: nat -> set<int>)
    requires Pointers(w.slot)
    ensures FairSince(w, Elapse(w, now, busy), now, busy)
  {
    var w1, r := ElapseIsTicks(w, now, busy);
    TicksFair(w1, now, w.lastTime + SI, w1.lastTime, busy);
  }

  lemma {:induction false} ElapseIsTicks(w: Wheel, now: int, busy: nat -> set<int>) returns (w1: Wheel, r: Wheel)
    requires Pointers(w.slot)
    ensures w1 == w.(lastTime := w1.lastTime)
    ensures r == Elapse(w, now, busy) && r == Repeat(TickAt(now, busy), w1, w.lastTime + SI, w1.lastTime)
  {
    w1, r := CaughtUp(w, now), Elapse(w, now, busy);
  }

  ghost predicate NoneEarly(log: seq<Attempt>) {
    forall e :: e in log ==> e.timer.when <= e.now
  }

  // No timer is ever tried before its deadline, in any run, whatever the clock reads.
  lemma {:induction false} NeverEarly(w: Wheel, ops: seq<Op>)
    requires Pointers(w.slot) && NoneEarly(w.log)
    ensures NoneEarly(Run(w, ops).log)
    decreases |ops|
  {
    if ops != [] {
      var r := Do(w, ops[0]);
      if ops[0].OpElapse? { ElapseFair(w, ops[0].now, ops[0].busy); }
      forall e | e in r.log ensures e.timer.when <= e.now {
        var k :| 0 <= k < |r.log| && r.log[k] == e;
        if k < |w.log| { assert w.log[k] == e; }
      }
      NeverEarly(r, ops[1..]);
    }
  }

  // ---- attempts that are made ------------------------------------------------------------------

  // An attempt for t was made at tick n since w.
  ghost predicate TriedSince(w: Wheel, r: Wheel, t: Timer, n: nat) {
    exists k :: |w.log| <= k < |r.log| && r.log[k].timer == t && r.log[k].tick == n
  }

  // Draining the bottom list tries every timer in it whose deadline has come.
  lemma {:induction false} DrainTries(w: Wheel, now: int, busy: set<int>, i: nat, k: nat)
    requires Pointers(w.slot) && i < |At(w.tw, Place(0, w.slot[0]))| && i < k
    requires At(w.tw, Place(0, w.slot[0]))[i].when <= now
    ensures TriedSince(w, TriggerSteps(w, now, busy, k), At(w.tw, Place(0, w.slot[0]))[i], w.n)
    decreases i
  {
    var w1 := TriggerStep(w, now, busy);
    var r := TriggerSteps(w1, now, busy, k - 1);
    if i == 0 {
      assert w1.log <= r.log && r.log[|w.log|] == w1.log[|w.log|];
    } else {
      TriggerShrinks(w, now, busy);
      DrainTries(w1, now, busy, i - 1, k - 1);
    }
  }

  // The list with a timer that was tried in vain is drained at the next tick.
  lemma {:induction false} TriedIsNext(w: Wheel, t0: int, id: int) returns (p: Place)
    requires Steady(w, t0) && id in w.locs && id in w.due && w.due[id] == Tried
    ensures In(Started(w).tw, p, w.locs[id]) && p == Place(0, Started(w).slot[0])
    ensures w.locs[id].when <= t0 + SI * (w.n + 1)
  {
    assert Asked(0);
    p :| In(w.tw, p, w.locs[id]);
    assert OnTime(w.locs[id], w.due[id], p, VisitFrom(p, w.n, LEVELS), w.n, t0);
    NextVisitExact(p, w.n);
    TurnTurns(w.slot, w.n + 1, 0);
  }

  // A timer that was tried in vain is tried again at every tick, until it is delivered.
  lemma {:induction false} RetriedNextTick(w: Wheel, now: int, tk: int, busy: set<int>, t0: int, id: int)
    requires Steady(w, t0) && now >= t0 + SI * (w.n + 1) && id in w.locs && id in w.due && w.due[id] == Tried
    ensures TriedSince(w, Tick(w, now, tk, busy), w.locs[id], w.n + 1)
  {
    var p := TriedIsNext(w, t0, id);
    var s := Started(w);
    var i :| 0 <= i < |s.tw[p]| && s.tw[p][i] == w.locs[id];
    DrainTries(s, now, busy, i, |At(s.tw, p)|);
  }

  // ---- what is delivered -------------------------------------------------------------------------

  // The data and the receiver that each id was made with.
  type Made = map<int, (int, Sink)>

  predicate Matches(t: Timer, made: Made) {
    t.id in made && made[t.id] == (t.data, t.sink)
  }

  ghost predicate ListsMatch(tw: map<Place, seq<Timer>>, made: Made) {
    forall p, t :: In(tw, p, t) ==> Matches(t, made)
  }

  // Every timer in a list, in the index or in the log is as it was made.
  ghost predicate AllMatch(w: Wheel, made: Made) {
    && ListsMatch(w.tw, made) && (forall id :: id in w.locs ==> Matches(w.locs[id], made))
    && (forall e :: e in w.log ==> Matches(e.timer, made))
  }

  lemma {:induction false} PutMatches(w: Wheel, p: Place, t: Timer, made: Made)
    requires AllMatch(w, made) && Matches(t, made)
    ensures AllMatch(Put(w, p, t), made)
  {
    var tw1 := Put(w, p, t).tw;
    forall q, u | In(tw1, q, u) ensures Matches(u, made) {
      if q == p { InAppended(At(w.tw, p), t, u); }
      assert u == t || In(w.tw, q, u);
    }
  }

  lemma {:induction false} PopMatches(w: Wheel, p: Place, made: Made)
    requires AllMatch(w, made) && At(w.tw, p) != []
    ensures AllMatch(Popped(w, p), made) && Matches(At(w.tw, p)[0], made)
  {
    assert In(w.tw, p, w.tw[p][0]);
    forall q, u | In(Popped(w, p).tw, q, u) ensures Matches(u, made) {
      if q == p {
        var i :| 0 <= i < |w.tw[p][1..]| && w.tw[p][1..][i] == u;
        assert w.tw[p][i + 1] == u;
      }
      assert In(w.tw, q, u);
    }
  }

  lemma {:induction false} AttemptMatches(w: Wheel, t: Timer, now: int, sent: bool, made: Made)
    requires AllMatch(w, made) && Matches(t, made)
    ensures AllMatch(Attempted(w, t, now, sent), made)
  {
  }

  lemma {:induction false} TriggerMatches(w: Wheel, now: int, busy: set<int>, made: Made)
    requires Pointers(w.slot) && AllMatch(w, made)
    ensures AllMatch(TriggerStep(w, now, busy), made)
  {
    var here := Place(0, w.slot[0]);
    if At(w.tw, here) != [] {
      var t, w1 := At(w.tw, here)[0], Popped(w, here);
      PopMatches(w, here, made);
      if t.when <= now {
        AttemptMatches(w1, t, now, true, made);
        AttemptMatches(w1, t, now, false, made);
        PutMatches(Attempted(w1, t, now, false), Place(0, (w.slot[0] + 1) % Slots(0)), t, made);
      } else {
        PutMatches(w1, PlaceFor(w1.slot, TicksTo(t.when, w1.lastTime)), t, made);
      }
    }
  }

  lemma {:induction false} CascadeMatches(w: Wheel, i: nat, tk: int, k: nat, made: Made)
    requires Pointers(w.slot) && i < LEVELS && AllMatch(w, made)
    ensures AllMatch(CascadeSteps(w, i, tk, k), made)
    decreases k
  {
    if k > 0 {
      var here := Place(i, w.slot[i]);
      if At(w.tw, here) != [] {
        var t := At(w.tw, here)[0];
        PopMatches(w, here, made);
        PutMatches(Popped(w, here), PlaceFor(w.slot, TicksTo(t.when, tk)), t, made);
      }
      CascadeMatches(CascadeStep(w, i, tk), i, tk, k - 1, made);
    }
  }

  lemma {:induction false} LevelsMatch(w: Wheel, i: nat, tk: int, made: Made)
    requires Pointers(w.slot) && 0 < i <= LEVELS && AllMatch(w, made)
    ensures AllMatch(Cascade(w, i, tk), made)
    decreases LEVELS - i
  {
    if i < LEVELS && w.slot[i - 1] == 0 {
      var w1 := Turn(w, i);
      CascadeMatches(w1, i, tk, |At(w1.tw, Place(i, w1.slot[i]))|, made);
      LevelsMatch(CascadeLevel(w, i, tk), i + 1, tk, made);
    }
  }

  lemma {:induction false} TickMatches(w: Wheel, now: int, tk: int, busy: set<int>, made: Made)
    requires Pointers(w.slot) && AllMatch(w, made)
    ensures AllMatch(Tick(w, now, tk, busy), made)
  {
    var s := Started(w);
    var P := (x: Wheel, j: nat) => AllMatch(x, made);
    forall x: Wheel, j: nat | Pointers(x.slot) && P(x, j + 1) ensures P(TriggerStep(x, now, busy), j) {
      TriggerMatches(x, now, busy, made);
    }
    TriggerInduction(P, s, now, busy, |At(s.tw, Place(0, s.slot[0]))|);
    LevelsMatch(Trigger(s, now, busy), 1, tk, made);
  }

  // The same, not looked into.
  ghost predicate Intact(w: Wheel, made: Made) {
    Pointers(w.slot) && forall k {:trigger Asked(k)} :: Asked(k) ==> AllMatch(w, made)
  }

  lemma {:induction false} TickIntact(w: Wheel, now: int, tk: int, busy: nat -> set<int>, made: Made)
    requires Intact(w, made)
    ensures Intact(TickAt(now, busy)(w, tk), made)
  {
    assert Asked(0);
    TickMatches(w, now, tk, busy(w.n), made);
  }

  lemma {:induction false} TicksIntact(w: Wheel, now: int, tk: int, last: int, busy: nat -> set<int>, made: Made)
    requires Intact(w, made)
    ensures Intact(Repeat(TickAt(now, busy), w, tk, last), made)
    decreases last - tk
  {
    if tk <= last {
      TickIntact(w, now, tk, busy, made);
      TicksIntact(TickAt(now, busy)(w, tk), now, tk + SI, last, busy, made);
    }
  }

  lemma {:induction false} ElapseMatches(w: Wheel, now: int, busy: nat -> set<int>, made: Made)
    requires Pointers(w.slot) && AllMatch(w, made)
    ensures AllMatch(Elapse(w, now, busy), made)
  {
    var w1, r := ElapseIsTicks(w, now, busy);
    assert AllMatch(w1, made);
    TicksIntact(w1, now, w.lastTime + SI, w1.lastTime, busy, made);
    assert Asked(0);
  }

  lemma {:induction false} DelMatches(w: Wheel, id: int, made: Made)
    requires AllMatch(w, made)
    ensures AllMatch(Del(w, id), made)
  {
    forall q, u | In(Del(w, id).tw, q, u) ensures Matches(u, made) {
      WithoutWithin(w.tw[q], id, u);
      assert In(w.tw, q, u);
    }
  }

  lemma {:induction false} WithoutWithin(s: seq<Timer>, id: int, t: Timer)
    requires t in Without(s, id)
    ensures t in s
    decreases |s|
  {
    if s[0].id != id && t != s[0] { WithoutWithin(s[1..], id, t); }
  }

  // What op makes, on top of what was made.
  function MadeBy(w: Wheel, op: Op, made: Made): Made {
    if op.OpNew? then made[w.genId + 1 := (op.data, op.sink)] else made
  }

  function MadeIn(w: Wheel, ops: seq<Op>, made: Made): Made
    requires Pointers(w.slot)
    decreases |ops|
  {
    if ops == [] then made else MadeIn(Do(w, ops[0]), ops[1..], MadeBy(w, ops[0], made))
  }

  lemma {:induction false} DoMatches(w: Wheel, op: Op, made: Made)
    requires Pointers(w.slot) && AllMatch(w, made) && (forall id :: id in made ==> id <= w.genId)
    ensures AllMatch(Do(w, op), MadeBy(w, op, made))
    ensures forall id :: id in MadeBy(w, op, made) ==> id <= Do(w, op).genId
  {
    match op
    case OpNew(when, data, sink) =>
      var id, made1 := w.genId + 1, MadeBy(w, op, made);
      assert AllMatch(w.(genId := id), made1);
      PutMatches(w.(genId := id), PlaceFor(w.slot, TicksTo(when, w.lastTime)), Timer(id, when, data, sink), made1);
    case OpCancel(id) => DelMatches(w, id, made);
    case OpUpdate(id, when) =>
      if id in w.locs {
        DelMatches(w, id, made);
        PutMatches(Del(w, id), PlaceFor(w.slot, TicksTo(when, w.lastTime)), w.locs[id].(when := when), made);
      }
    case OpElapse(now, busy) => ElapseMatches(w, now, busy, made);
  }

  lemma {:induction false} DataStays(w: Wheel, ops: seq<Op>, made: Made)
    requires Pointers(w.slot) && AllMatch(w, made) && (forall id :: id in made ==> id <= w.genId)
    ensures AllMatch(Run(w, ops), MadeIn(w, ops, made))
    decreases |ops|
  {
    if ops != [] {
      DoMatches(w, ops[0], made);
      DataStays(Do(w, ops[0]), ops[1..], MadeBy(w, ops[0], made));
    }
  }

  // Whatever happens to a timer in a run, it is tried and delivered with the data and for the
  // receiver that it was made with.
  lemma {:induction false} DataKept(now: int, ops: seq<Op>)
    ensures var w := Run(NewWheel(now), ops); var made := MadeIn(NewWheel(now), ops, map[]);
            && (forall e :: e in w.log ==> Matches(e.timer, made))
            && (forall id :: id in w.locs ==> Matches(w.locs[id], made))
  {
    DataStays(NewWheel(now), ops, map[]);
  }
}
