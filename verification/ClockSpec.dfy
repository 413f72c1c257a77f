// The hierarchical timing wheel of clock/clock.go, on values: four levels of slots, each slot
// a list of timers, and an index from id to timer.  Three fields are history only: the number
// of ticks so far, the tick each timer is due at, and the log of delivery attempts.
module ClockSpec {
  import opened Words

  const SI: nat := 20
  const LEVELS: nat := 4

  // Ticks between two moves of a level's pointer.
  function Unit(l: nat): (u: nat)
    requires l < LEVELS
    ensures u > 0
  {
    if l == 0 then 1 else if l == 1 then 0x400 else if l == 2 then 0x4_0000 else 0x100_0000
  }

  function Slots(l: nat): (s: nat)
    requires l < LEVELS
    ensures s > 1
  {
    if l == 0 then 1024 else if l == 1 then 256 else 64
  }

  // The distances a level can hold are below this.
  function Reach(l: nat): (r: nat)
    requires l < LEVELS
    ensures r == Unit(l) * Slots(l) && (l + 1 < LEVELS ==> r == Unit(l + 1))
  {
    if l == 0 then 0x400 else if l == 1 then 0x4_0000 else if l == 2 then 0x100_0000 else 0x4000_0000
  }

  const HORIZON: nat := 0x4000_0000

  datatype Sink = Receiver(ch: nat) | Batch(ch: nat)
  datatype Timer = Timer(id: int, when: int, data: int, sink: Sink)
  datatype Due = Armed(tick: int) | Tried
  datatype Attempt = Attempt(timer: Timer, due: Due, tick: nat, now: int, sent: bool)
  datatype Place = Place(level: nat, slot: nat)
  datatype Wheel = Wheel(
    slot: seq<nat>, tw: map<Place, seq<Timer>>, locs: map<int, Timer>, lastTime: int, genId: int,
    n: nat, due: map<int, Due>, log: seq<Attempt>, cancelled: set<int>)

  predicate Good(p: Place) {
    p.level < LEVELS && p.slot < Slots(p.level)
  }

  predicate Pointers(slot: seq<nat>) {
    |slot| == LEVELS && forall l :: 0 <= l < LEVELS ==> slot[l] < Slots(l)
  }

  function NewWheel(now: int): Wheel {
    Wheel([0, 0, 0, 0], map[], map[], now, 0, 0, map[], [], {})
  }

  // Division as the processor does it, towards zero.
  function Quotient(a: int, b: nat): int
    requires b > 0
  {
    if a >= 0 then a / b else -((-a) / b)
  }

  // The distance of a deadline, rounded up, is an int64 value.
  predicate Fits(when: int, time: int) {
    -I64 <= when - time + SI - 1 < I64
  }

  // It is not too far ahead for one: so it is for every int64 deadline, SI after 1970 and later.
  predicate Bounded(when: int, time: int) {
    when - time + SI - 1 < I64
  }

  // The deadline that the distance amounts to: one too far behind comes out ahead.
  function Seen(when: int, time: int): int {
    if when - time + SI - 1 < -I64 then when + 2 * I64 else when
  }

  // Ticks from time until a deadline, rounded up, and at least one, as computed on int64.
  function TicksTo(when: int, time: int): (t: nat)
    ensures t >= 1
  {
    var d := Quotient(Signed64(when - time + SI - 1), SI);
    if d <= 0 then 1 else d
  }

  // Where a timer goes that many ticks ahead of the pointers.
  function PlaceFor(slot: seq<nat>, ticks: nat): (p: Place)
    requires Pointers(slot)
    ensures Good(p)
  {
    if ticks < Reach(0) then Place(0, (ticks / Unit(0) + slot[0]) % Slots(0))
    else if ticks < Reach(1) then Place(1, (ticks / Unit(1) + slot[1]) % Slots(1))
    else if ticks < Reach(2) then Place(2, (ticks / Unit(2) + slot[2]) % Slots(2))
    else if ticks < Reach(3) then Place(3, (ticks / Unit(3) + slot[3]) % Slots(3))
    else Place(3, Slots(3) - 1)
  }

  function At(tw: map<Place, seq<Timer>>, p: Place): seq<Timer> {
    if p in tw then tw[p] else []
  }

  function Put(w: Wheel, p: Place, t: Timer): Wheel {
    w.(tw := w.tw[p := At(w.tw, p) + [t]], locs := w.locs[t.id := t])
  }

  function Add(w: Wheel, t: Timer): Wheel
    requires Pointers(w.slot)
  {
    Put(w, PlaceFor(w.slot, TicksTo(t.when, w.lastTime)), t)
  }

  // s without the timer of that id.
  function Without(s: seq<Timer>, id: int): (r: seq<Timer>)
    ensures |r| <= |s|
  {
    if s == [] then [] else if s[0].id == id then s[1..] else [s[0]] + Without(s[1..], id)
  }

  // Unlink the timer of that id from whichever list it is in.
  function Del(w: Wheel, id: int): Wheel {
    w.(tw := map p | p in w.tw :: Without(w.tw[p], id), locs := w.locs - {id})
  }

  // ---- the clock's operations ---------------------------------------------------

  function Arm(w: Wheel, id: int, when: int): Wheel {
    w.(due := w.due[id := Armed(w.n + TicksTo(when, w.lastTime))])
  }

  function New(w: Wheel, when: int, data: int, sink: Sink): Wheel
    requires Pointers(w.slot)
  {
    var id := w.genId + 1;
    Arm(Add(w.(genId := id), Timer(id, when, data, sink)), id, when)
  }

  function Cancel(w: Wheel, id: int): Wheel {
    if id in w.locs then
      var w1 := Del(w, id);
      w1.(due := w.due - {id}, cancelled := w.cancelled + {id})
    else w
  }

  function Update(w: Wheel, id: int, when: int): Wheel
    requires Pointers(w.slot)
  {
    if id in w.locs then
      Arm(Add(Del(w, id), w.locs[id].(when := when)), id, when)
    else w
  }

  // ---- a tick -------------------------------------------------------------------

  function Popped(w: Wheel, p: Place): Wheel
    requires At(w.tw, p) != []
  {
    w.(tw := w.tw[p := At(w.tw, p)[1..]])
  }

  function DueOf(w: Wheel, id: int): Due {
    if id in w.due then w.due[id] else Tried
  }

  function Attempted(w: Wheel, t: Timer, now: int, sent: bool): Wheel {
    w.(log := w.log + [Attempt(t, DueOf(w, t.id), w.n, now, sent)],
       due := if sent then w.due - {t.id} else w.due[t.id := Tried],
       locs := w.locs - {t.id})
  }

  // The history of w is where that of r began.
  predicate Later(w: Wheel, r: Wheel) {
    w.log <= r.log && w.cancelled <= r.cancelled && w.genId <= r.genId
  }

  // No timer is armed that was not, or for another tick.
  ghost predicate NoneArmed(due: map<int, Due>, due1: map<int, Due>) {
    forall id :: id in due1 && due1[id].Armed? ==> id in due && due[id] == due1[id]
  }

  // Take the first timer of the current bottom slot and try to deliver it.
  function TriggerStep(w: Wheel, now: int, busy: set<int>): Wheel
    requires Pointers(w.slot)
  {
    var here := Place(0, w.slot[0]);
    if At(w.tw, here) == [] then w else
      var t := At(w.tw, here)[0];
      var w1 := Popped(w, here);
      if t.when <= now then
        if t.sink.Batch? || t.id !in busy then Attempted(w1, t, now, true)
        else Put(Attempted(w1, t, now, false), Place(0, (w.slot[0] + 1) % Slots(0)), t)
      else Add(w1, t)
  }

  function TriggerSteps(w: Wheel, now: int, busy: set<int>, k: nat): (r: Wheel)
    requires Pointers(w.slot)
    ensures r.slot == w.slot
    ensures Later(w, r) && r.cancelled == w.cancelled && r.genId == w.genId
    ensures r.lastTime == w.lastTime && r.n == w.n && NoneArmed(w.due, r.due)
    decreases k
  {
    if k == 0 then w else TriggerSteps(TriggerStep(w, now, busy), now, busy, k - 1)
  }

  function Trigger(w: Wheel, now: int, busy: set<int>): (r: Wheel)
    requires Pointers(w.slot)
    ensures r.slot == w.slot
    ensures Later(w, r) && r.cancelled == w.cancelled && r.genId == w.genId
    ensures r.lastTime == w.lastTime && r.n == w.n && NoneArmed(w.due, r.due)
  {
    TriggerSteps(w, now, busy, |At(w.tw, Place(0, w.slot[0]))|)
  }

  // Take the first timer of the current slot of level i and place it again.
  function CascadeStep(w: Wheel, i: nat, tk: int): Wheel
    requires Pointers(w.slot) && i < LEVELS
  {
    var here := Place(i, w.slot[i]);
    if At(w.tw, here) == [] then w else
      var t := At(w.tw, here)[0];
      Put(Popped(w, here), PlaceFor(w.slot, TicksTo(t.when, tk)), t)
  }

  function CascadeSteps(w: Wheel, i: nat, tk: int, k: nat): (r: Wheel)
    requires Pointers(w.slot) && i < LEVELS
    ensures r.slot == w.slot
    ensures r.log == w.log && r.cancelled == w.cancelled && r.genId == w.genId
    ensures r.lastTime == w.lastTime && r.due == w.due && r.n == w.n
    decreases k
  {
    if k == 0 then w else CascadeSteps(CascadeStep(w, i, tk), i, tk, k - 1)
  }

  function Turn(w: Wheel, i: nat): (r: Wheel)
    requires Pointers(w.slot) && i < LEVELS
    ensures Pointers(r.slot)
  {
    w.(slot := w.slot[i := (w.slot[i] + 1) % Slots(i)])
  }

  function CascadeLevel(w: Wheel, i: nat, tk: int): (r: Wheel)
    requires Pointers(w.slot) && i < LEVELS
    ensures Pointers(r.slot)
    ensures r.log == w.log && r.cancelled == w.cancelled && r.genId == w.genId
    ensures r.lastTime == w.lastTime && r.due == w.due && r.n == w.n
  {
    var w1 := Turn(w, i);
    CascadeSteps(w1, i, tk, |At(w1.tw, Place(i, w1.slot[i]))|)
  }

  function Cascade(w: Wheel, i: nat, tk: int): (r: Wheel)
    requires Pointers(w.slot) && 0 < i <= LEVELS
    ensures Pointers(r.slot)
    ensures r.log == w.log && r.cancelled == w.cancelled && r.genId == w.genId
    ensures r.lastTime == w.lastTime && r.due == w.due && r.n == w.n
    decreases LEVELS - i
  {
    if i == LEVELS || w.slot[i - 1] != 0 then w
    else Cascade(CascadeLevel(w, i, tk), i + 1, tk)
  }

  function Started(w: Wheel): (r: Wheel)
    requires Pointers(w.slot)
    ensures Pointers(r.slot)
  {
    Turn(w.(n := w.n + 1), 0)
  }

  function Tick(w: Wheel, now: int, tk: int, busy: set<int>): (r: Wheel)
    requires Pointers(w.slot)
    ensures Pointers(r.slot)
    ensures r.lastTime == w.lastTime && r.n == w.n + 1 && NoneArmed(w.due, r.due)
    ensures Later(w, r) && r.cancelled == w.cancelled && r.genId == w.genId
  {
    Cascade(Trigger(Started(w), now, busy), 1, tk)
  }

  type Step = (Wheel, int) -> Wheel

  // Steps for the times tk, tk + SI, ... up to last.
  function Repeat(step: Step, w: Wheel, tk: int, last: int): Wheel
    decreases last - tk
  {
    if tk > last then w else Repeat(step, step(w, tk), tk + SI, last)
  }

  lemma {:induction false} RepeatKeeps(P: (Wheel, int) -> bool, step: Step, w: Wheel, tk: int, last: int)
    requires P(w, tk)
    requires forall x: Wheel, t: int :: P(x, t) && t <= last ==> P(step(x, t), t + SI)
    ensures exists t :: P(Repeat(step, w, tk, last), t) && last < t && (t == tk || t <= last + SI)
    decreases last - tk
  {
    if tk <= last {
      RepeatKeeps(P, step, step(w, tk), tk + SI, last);
      var t :| P(Repeat(step, step(w, tk), tk + SI, last), t) && last < t && (t == tk + SI || t <= last + SI);
      assert P(Repeat(step, w, tk, last), t);
    } else {
      assert P(Repeat(step, w, tk, last), tk);
    }
  }

  // One tick for a time, read as now; busy says which receivers are full when.
  function TickAt(now: int, busy: nat -> set<int>): Step {
    (x: Wheel, t: int) => if Pointers(x.slot) then Tick(x, now, t, busy(x.n)) else x
  }

  // What ticks leave alone.
  ghost predicate OnlyTicked(w: Wheel, r: Wheel) {
    && Pointers(r.slot) && Later(w, r) && r.cancelled == w.cancelled && r.genId == w.genId
    && r.lastTime == w.lastTime && NoneArmed(w.due, r.due)
  }

  lemma {:induction false} TicksOnly(w: Wheel, now: int, tk: int, last: int, busy: nat -> set<int>)
    requires Pointers(w.slot)
    ensures OnlyTicked(w, Repeat(TickAt(now, busy), w, tk, last))
  {
    RepeatKeeps((x: Wheel, t: int) => OnlyTicked(w, x), TickAt(now, busy), w, tk, last);
  }

  function Behind(w: Wheel, now: int): int {
    Quotient(now - w.lastTime, SI)
  }

  function CaughtUp(w: Wheel, now: int): Wheel {
    w.(lastTime := w.lastTime + SI * Behind(w, now))
  }

  // Catch up with the time now.
  function Elapse(w: Wheel, now: int, busy: nat -> set<int>): (r: Wheel)
    requires Pointers(w.slot)
    ensures Pointers(r.slot)
    ensures Later(w, r) && r.cancelled == w.cancelled && r.genId == w.genId
  {
    var w1 := CaughtUp(w, now);
    TicksOnly(w1, now, w.lastTime + SI, w1.lastTime, busy);
    Repeat(TickAt(now, busy), w1, w.lastTime + SI, w1.lastTime)
  }

  // ---- when draining a list ends --------------------------------------------------

  // Some timer of the list being drained is too far ahead for the top level.
  ghost predicate Far(s: seq<Timer>, tk: int) {
    exists k :: 0 <= k < |s| && TicksTo(s[k].when, tk) >= HORIZON
  }

  ghost predicate Stuck(w: Wheel, i: nat, tk: int)
    requires Pointers(w.slot) && i < LEVELS
  {
    i == 3 && w.slot[3] == Slots(3) - 1 && Far(At(w.tw, Place(3, w.slot[3])), tk)
  }

  ghost predicate CascadeEnds(w: Wheel, i: nat, tk: int)
    requires Pointers(w.slot) && 0 < i <= LEVELS
    decreases LEVELS - i
  {
    i == LEVELS || w.slot[i - 1] != 0 ||
    (!Stuck(Turn(w, i), i, tk) && CascadeEnds(CascadeLevel(w, i, tk), i + 1, tk))
  }

  ghost predicate TickEnds(w: Wheel, now: int, tk: int, busy: set<int>)
    requires Pointers(w.slot)
  {
    CascadeEnds(Trigger(Started(w), now, busy), 1, tk)
  }

  ghost function EndsAt(now: int, busy: nat -> set<int>): (Wheel, int) -> bool {
    (x: Wheel, t: int) => Pointers(x.slot) && TickEnds(x, now, t, busy(x.n))
  }

  // Each of the steps ends.
  ghost predicate AllEnd(ok: (Wheel, int) -> bool, step: Step, w: Wheel, tk: int, last: int)
    decreases last - tk
  {
    tk > last || (ok(w, tk) && AllEnd(ok, step, step(w, tk), tk + SI, last))
  }

  // ---- whole runs -----------------------------------------------------------------

  datatype Op =
    | OpNew(when: int, data: int, sink: Sink)
    | OpCancel(id: int)
    | OpUpdate(id: int, when: int)
    | OpElapse(now: int, busy: nat -> set<int>)

  function Do(w: Wheel, op: Op): (r: Wheel)
    requires Pointers(w.slot)
    ensures Pointers(r.slot)
    ensures Later(w, r)
  {
    match op
    case OpNew(when, data, sink) => New(w, when, data, sink)
    case OpCancel(id) => Cancel(w, id)
    case OpUpdate(id, when) => Update(w, id, when)
    case OpElapse(now, busy) => Elapse(w, now, busy)
  }

  ghost predicate Ends(w: Wheel, op: Op)
    requires Pointers(w.slot)
  {
    op.OpElapse? ==>
      var w1 := CaughtUp(w, op.now);
      AllEnd(EndsAt(op.now, op.busy), TickAt(op.now, op.busy), w1, w.lastTime + SI, w1.lastTime)
  }

  ghost predicate RunEnds(w: Wheel, ops: seq<Op>)
    requires Pointers(w.slot)
    decreases |ops|
  {
    ops == [] || (Ends(w, ops[0]) && RunEnds(Do(w, ops[0]), ops[1..]))
  }

  function Run(w: Wheel, ops: seq<Op>): (r: Wheel)
    requires Pointers(w.slot)
    ensures Pointers(r.slot)
    ensures Later(w, r)
    decreases |ops|
  {
    if ops == [] then w else Run(Do(w, ops[0]), ops[1..])
  }
}
