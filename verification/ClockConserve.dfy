// Every timer the clock was given is pending in exactly one place, or delivered once, or
// cancelled, whatever the clock reads and whichever receivers are full.
module ClockConserve {
  import opened ClockSpec

  ghost predicate In(tw: map<Place, seq<Timer>>, p: Place, t: Timer) {
    p in tw && t in tw[p]
  }

  ghost predicate Distinct(s: seq<Timer>) {
    forall i, j :: 0 <= i < j < |s| ==> s[i] != s[j]
  }

  // The lists hold exactly the indexed timers, each in one place, except those in hand.
  ghost predicate Listed(tw: map<Place, seq<Timer>>, locs: map<int, Timer>, hand: set<int>) {
    && (forall p :: p in tw ==> Distinct(tw[p]))
    && (forall p, t :: In(tw, p, t) ==> t.id in locs && t.id !in hand && locs[t.id] == t)
    && (forall p, q, t :: In(tw, p, t) && In(tw, q, t) ==> p == q)
    && (forall id :: id in locs && id !in hand ==> locs[id].id == id && exists p :: In(tw, p, locs[id]))
  }

  ghost function Sent(log: seq<Attempt>): set<int> {
    set e <- log | e.sent :: e.timer.id
  }

  ghost predicate SentOnce(log: seq<Attempt>) {
    forall i, j :: 0 <= i < j < |log| && log[i].sent && log[j].sent ==> log[i].timer.id != log[j].timer.id
  }

  // Each id given out is exactly one of pending, delivered and cancelled.
  ghost predicate Parted(pending: set<int>, sent: set<int>, cancelled: set<int>, genId: int) {
    && pending !! sent && pending !! cancelled && sent !! cancelled && genId >= 0
    && (forall id :: 1 <= id <= genId <==> id in pending || id in sent || id in cancelled)
  }

  ghost predicate Conserved(w: Wheel) {
    && Listed(w.tw, w.locs, {})
    && Parted(w.locs.Keys, Sent(w.log), w.cancelled, w.genId)
    && SentOnce(w.log)
    && w.due.Keys == w.locs.Keys
  }

  // ---- the list operations --------------------------------------------------------

  lemma {:induction false} InTail(s: seq<Timer>, t: Timer)
    requires Distinct(s) && s != []
    ensures t in s[1..] <==> t in s && t != s[0]
  {
    if t in s[1..] { var k :| 0 <= k < |s[1..]| && s[1..][k] == t; assert s[k + 1] == t; }
    if t in s && t != s[0] { var k :| 0 <= k < |s| && s[k] == t; assert s[1..][k - 1] == t; }
  }

  lemma {:induction false} InAppended(s: seq<Timer>, x: Timer, t: Timer)
    ensures t in s + [x] <==> t in s || t == x
  {
    var r := s + [x];
    assert r[|s|] == x;
    if t in s { var k :| 0 <= k < |s| && s[k] == t; assert r[k] == t; }
  }

  lemma {:induction false} PopListed(tw: map<Place, seq<Timer>>, locs: map<int, Timer>, p: Place)
    requires Listed(tw, locs, {}) && At(tw, p) != []
    ensures Listed(tw[p := tw[p][1..]], locs, {tw[p][0].id})
  {
    var t := tw[p][0];
    var r := tw[p := tw[p][1..]];
    assert In(tw, p, t);
    forall q, u ensures In(r, q, u) <==> In(tw, q, u) && u != t {
      if q == p { InTail(tw[p], u); }
    }
    forall id | id in locs && id != t.id ensures exists q :: In(r, q, locs[id]) {
      var q :| In(tw, q, locs[id]);
      assert In(r, q, locs[id]);
    }
  }

  lemma {:induction false} PutListed(tw: map<Place, seq<Timer>>, locs: map<int, Timer>, hand: set<int>, p: Place,
                                     t: Timer)
    requires Listed(tw, locs, hand) && (t.id in hand || t.id !in locs)
    ensures Listed(tw[p := At(tw, p) + [t]], locs[t.id := t], hand - {t.id})
  {
    var r := tw[p := At(tw, p) + [t]];
    var l := locs[t.id := t];
    forall q, u ensures In(r, q, u) <==> In(tw, q, u) || (q == p && u == t) {
      if q == p { InAppended(At(tw, p), t, u); }
    }
    assert forall q :: !In(tw, q, t);
    assert forall i :: 0 <= i < |At(tw, p)| ==> In(tw, p, tw[p][i]);
    forall id | id in l && id !in hand - {t.id} ensures l[id].id == id && exists q :: In(r, q, l[id]) {
      if id == t.id {
        assert In(r, p, t);
      } else {
        var q :| In(tw, q, locs[id]);
        assert In(r, q, l[id]);
      }
    }
  }

  // Forgetting a timer in hand.
  lemma {:induction false} DropListed(tw: map<Place, seq<Timer>>, locs: map<int, Timer>, id: int)
    requires Listed(tw, locs, {id})
    ensures Listed(tw, locs - {id}, {})
  {
  }

  lemma {:induction false} InWithout(s: seq<Timer>, id: int)
    requires Distinct(s) && forall t, u :: t in s && u in s && t.id == u.id ==> t == u
    ensures Distinct(Without(s, id)) && forall t :: t in Without(s, id) <==> t in s && t.id != id
    decreases |s|
  {
    if s != [] {
      var rest := s[1..];
      var r1 := Without(rest, id);
      forall t ensures t in rest <==> t in s && t != s[0] { InTail(s, t); }
      InWithout(rest, id);
      if s[0].id != id {
        assert Without(s, id) == [s[0]] + r1;
        assert forall i :: 0 <= i < |r1| ==> r1[i] in rest;
      }
    }
  }

  lemma {:induction false} DelListed(w: Wheel, id: int)
    requires Listed(w.tw, w.locs, {})
    ensures Listed(Del(w, id).tw, w.locs - {id}, {})
  {
    var r := Del(w, id).tw;
    forall p | p in w.tw ensures Distinct(r[p]) && forall t :: t in r[p] <==> t in w.tw[p] && t.id != id {
      assert forall t :: t in w.tw[p] ==> In(w.tw, p, t);
      InWithout(w.tw[p], id);
    }
    forall p, t ensures In(r, p, t) <==> In(w.tw, p, t) && t.id != id { }
    forall x | x in w.locs && x != id ensures exists p :: In(r, p, w.locs[x]) {
      var p :| In(w.tw, p, w.locs[x]);
      assert In(r, p, w.locs[x]);
    }
  }

  // ---- the operations -------------------------------------------------------------

  lemma {:induction false} SentGrows(log: seq<Attempt>, e: Attempt)
    ensures Sent(log + [e]) == Sent(log) + (if e.sent then {e.timer.id} else {})
  {
    var r := log + [e];
    assert r[|log|] == e;
    forall x | x in log ensures x in r { var k :| 0 <= k < |log| && log[k] == x; assert r[k] == x; }
  }

  lemma {:induction false} SentStaysOnce(log: seq<Attempt>, e: Attempt)
    requires SentOnce(log) && (e.sent ==> e.timer.id !in Sent(log))
    ensures SentOnce(log + [e])
  {
    var r := log + [e];
    forall i, j | 0 <= i < j < |r| && r[i].sent && r[j].sent ensures r[i].timer.id != r[j].timer.id {
      if j == |log| { assert log[i] in log; assert log[i].timer.id in Sent(log); }
    }
  }

  lemma {:induction false} AddConserves(w: Wheel, p: Place, t: Timer, d: Due)
    requires Conserved(w) && t.id == w.genId + 1
    ensures Conserved(Put(w, p, t).(genId := t.id, due := w.due[t.id := d]))
  {
    PutListed(w.tw, w.locs, {}, p, t);
    assert w.locs[t.id := t].Keys == w.locs.Keys + {t.id};
  }

  lemma {:induction false} MoveListed(tw: map<Place, seq<Timer>>, locs: map<int, Timer>, from: Place, to: Place)
    requires Listed(tw, locs, {}) && At(tw, from) != []
    ensures var t := tw[from][0]; var m := tw[from := tw[from][1..]];
            Listed(m[to := At(m, to) + [t]], locs, {})
  {
    PopListed(tw, locs, from);
    var t := tw[from][0];
    var m := tw[from := tw[from][1..]];
    PutListed(m, locs, {t.id}, to, t);
    assert In(tw, from, t);
    assert locs[t.id := t] == locs;
    assert {t.id} - {t.id} == {};
  }

  lemma {:induction false} DoneConserves(w: Wheel, p: Place, now: int)
    requires Conserved(w) && At(w.tw, p) != []
    ensures Conserved(Attempted(Popped(w, p), w.tw[p][0], now, true))
  {
    var t := w.tw[p][0];
    PopListed(w.tw, w.locs, p);
    DropListed(w.tw[p := w.tw[p][1..]], w.locs, t.id);
    var e := Attempt(t, DueOf(w, t.id), w.n, now, true);
    assert In(w.tw, p, t);
    SentGrows(w.log, e);
    SentStaysOnce(w.log, e);
    assert (w.locs - {t.id}).Keys == w.locs.Keys - {t.id};
  }

  lemma {:induction false} RetryConserves(w: Wheel, p: Place, q: Place, now: int)
    requires Conserved(w) && At(w.tw, p) != []
    ensures Conserved(Put(Attempted(Popped(w, p), w.tw[p][0], now, false), q, w.tw[p][0]))
  {
    var t := w.tw[p][0];
    MoveListed(w.tw, w.locs, p, q);
    assert In(w.tw, p, t);
    assert (w.locs - {t.id})[t.id := t] == w.locs;
    var e := Attempt(t, DueOf(w, t.id), w.n, now, false);
    SentGrows(w.log, e);
    assert Sent(w.log + [e]) == Sent(w.log);
    SentStaysOnce(w.log, e);
  }

  lemma {:induction false} MoveConserves(w: Wheel, p: Place, q: Place)
    requires Conserved(w) && At(w.tw, p) != []
    ensures Conserved(Put(Popped(w, p), q, w.tw[p][0]))
  {
    var t := w.tw[p][0];
    MoveListed(w.tw, w.locs, p, q);
    assert In(w.tw, p, t);
    assert w.locs[t.id := t] == w.locs;
  }

  lemma {:induction false} TriggerStepConserves(w: Wheel, now: int, busy: set<int>)
    requires Pointers(w.slot) && Conserved(w)
    ensures Conserved(TriggerStep(w, now, busy))
  {
    var here := Place(0, w.slot[0]);
    if At(w.tw, here) != [] {
      var t := w.tw[here][0];
      if t.when > now { MoveConserves(w, here, PlaceFor(w.slot, TicksTo(t.when, w.lastTime))); }
      else if t.sink.Batch? || t.id !in busy { DoneConserves(w, here, now); }
      else { RetryConserves(w, here, Place(0, (w.slot[0] + 1) % Slots(0)), now); }
    }
  }

  lemma {:induction false} TriggerConserves(w: Wheel, now: int, busy: set<int>, k: nat)
    requires Pointers(w.slot) && Conserved(w)
    ensures Conserved(TriggerSteps(w, now, busy, k))
    decreases k
  {
    if k > 0 {
      TriggerStepConserves(w, now, busy);
      TriggerConserves(TriggerStep(w, now, busy), now, busy, k - 1);
    }
  }

  lemma {:induction false} CascadeStepsConserve(w: Wheel, i: nat, tk: int, k: nat)
    requires Pointers(w.slot) && i < LEVELS && Conserved(w)
    ensures Conserved(CascadeSteps(w, i, tk, k))
    decreases k
  {
    if k > 0 {
      var here := Place(i, w.slot[i]);
      if At(w.tw, here) != [] {
        MoveConserves(w, here, PlaceFor(w.slot, TicksTo(w.tw[here][0].when, tk)));
      }
      CascadeStepsConserve(CascadeStep(w, i, tk), i, tk, k - 1);
    }
  }

  lemma {:induction false} CascadeConserves(w: Wheel, i: nat, tk: int)
    requires Pointers(w.slot) && 0 < i <= LEVELS && Conserved(w)
    ensures Conserved(Cascade(w, i, tk))
    decreases LEVELS - i
  {
    if i < LEVELS && w.slot[i - 1] == 0 {
      var w1 := Turn(w, i);
      CascadeStepsConserve(w1, i, tk, |At(w1.tw, Place(i, w1.slot[i]))|);
      CascadeConserves(CascadeLevel(w, i, tk), i + 1, tk);
    }
  }

  lemma {:induction false} TickConserves(w: Wheel, now: int, tk: int, busy: set<int>)
    requires Pointers(w.slot) && Conserved(w)
    ensures Conserved(Tick(w, now, tk, busy))
  {
    var w1 := Started(w);
    TriggerConserves(w1, now, busy, |At(w1.tw, Place(0, w1.slot[0]))|);
    CascadeConserves(Trigger(w1, now, busy), 1, tk);
  }

  lemma {:induction false} CancelConserves(w: Wheel, id: int)
    requires Conserved(w)
    ensures Conserved(Cancel(w, id))
  {
    DelListed(w, id);
    assert (w.locs - {id}).Keys == w.locs.Keys - {id};
  }

  lemma {:induction false} UpdateConserves(w: Wheel, id: int, when: int)
    requires Pointers(w.slot) && Conserved(w)
    ensures Conserved(Update(w, id, when))
  {
    if id in w.locs {
      DelListed(w, id);
      var t := w.locs[id].(when := when);
      var d := Del(w, id);
      assert (w.locs - {id})[id := t].Keys == w.locs.Keys;
      PutListed(d.tw, d.locs, {}, PlaceFor(w.slot, TicksTo(when, w.lastTime)), t);
    }
  }

  lemma {:induction false} NewConserves(w: Wheel, when: int, data: int, sink: Sink)
    requires Pointers(w.slot) && Conserved(w)
    ensures Conserved(New(w, when, data, sink))
  {
    var ticks := TicksTo(when, w.lastTime);
    AddConserves(w, PlaceFor(w.slot, ticks), Timer(w.genId + 1, when, data, sink), Armed(w.n + ticks));
  }

  lemma {:induction false} TickAtConserves(w: Wheel, now: int, tk: int, busy: nat -> set<int>)
    requires Conserved(w)
    ensures Conserved(TickAt(now, busy)(w, tk))
  {
    if Pointers(w.slot) { TickConserves(w, now, tk, busy(w.n)); }
  }

  lemma {:induction false} RepeatConserves(w: Wheel, now: int, tk: int, last: int, busy: nat -> set<int>)
    requires Conserved(w)
    ensures Conserved(Repeat(TickAt(now, busy), w, tk, last))
  {
    var step := TickAt(now, busy);
    var P := (x: Wheel, t: int) => Conserved(x);
    forall x: Wheel, t: int | P(x, t) && t <= last ensures P(step(x, t), t + SI) {
      TickAtConserves(x, now, t, busy);
    }
    RepeatKeeps(P, step, w, tk, last);
  }

  lemma {:induction false} ElapseConserves(w: Wheel, now: int, busy: nat -> set<int>)
    requires Pointers(w.slot) && Conserved(w)
    ensures Conserved(Elapse(w, now, busy))
  {
    var w1 := CaughtUp(w, now);
    assert Conserved(w1);
    RepeatConserves(w1, now, w.lastTime + SI, w1.lastTime, busy);
  }

  lemma {:induction false} DoConserves(w: Wheel, op: Op)
    requires Pointers(w.slot) && Conserved(w)
    ensures Conserved(Do(w, op))
  {
    match op
    case OpNew(when, data, sink) => NewConserves(w, when, data, sink);
    case OpCancel(id) => CancelConserves(w, id);
    case OpUpdate(id, when) => UpdateConserves(w, id, when);
    case OpElapse(now, busy) => ElapseConserves(w, now, busy);
  }

  // Conservation over whole runs.
  lemma {:induction false} RunConserves(w: Wheel, ops: seq<Op>)
    requires Pointers(w.slot) && Conserved(w)
    ensures Conserved(Run(w, ops))
    decreases |ops|
  {
    if ops != [] {
      DoConserves(w, ops[0]);
      RunConserves(Do(w, ops[0]), ops[1..]);
    }
  }

  lemma {:induction false} Conservation(now: int, ops: seq<Op>)
    ensures Conserved(Run(NewWheel(now), ops))
  {
    var w := NewWheel(now);
    assert Conserved(w);
    RunConserves(w, ops);
  }

  lemma {:induction false} RunSplits(w: Wheel, a: seq<Op>, b: seq<Op>)
    requires Pointers(w.slot)
    ensures Run(w, a + b) == Run(Run(w, a), b)
    decreases |a|
  {
    if a == [] {
      assert a + b == b;
    } else {
      assert (a + b)[0] == a[0] && (a + b)[1..] == a[1..] + b;
      RunSplits(Do(w, a[0]), a[1..], b);
    }
  }

  // A cancelled timer is never delivered, then or later, and never comes back.
  lemma {:induction false} CancelIsFinal(now: int, a: seq<Op>, id: int, b: seq<Op>)
    requires id in Run(NewWheel(now), a).locs
    ensures var w := Run(NewWheel(now), a + [OpCancel(id)] + b);
            id !in w.locs && id !in Sent(w.log)
  {
    var w0 := NewWheel(now);
    RunSplits(w0, a, [OpCancel(id)] + b);
    assert a + [OpCancel(id)] + b == a + ([OpCancel(id)] + b);
    var ops := [OpCancel(id)] + b;
    assert ops[0] == OpCancel(id) && ops[1..] == b;
    assert id in Do(Run(w0, a), OpCancel(id)).cancelled;
    Conservation(now, a + [OpCancel(id)] + b);
  }

  // A delivered timer stays delivered, and is never delivered again.
  lemma {:induction false} DeliveryIsFinal(now: int, a: seq<Op>, id: int, b: seq<Op>)
    requires id in Sent(Run(NewWheel(now), a).log)
    ensures var w := Run(NewWheel(now), a + b);
            id !in w.locs && id !in w.cancelled && id in Sent(w.log) && SentOnce(w.log)
  {
    var w0 := NewWheel(now);
    RunSplits(w0, a, b);
    var l0, l1 := Run(w0, a).log, Run(w0, a + b).log;
    var e :| e in l0 && e.sent && e.timer.id == id;
    var k :| 0 <= k < |l0| && l0[k] == e;
    assert l1[k] == e;
    Conservation(now, a + b);
  }
}
