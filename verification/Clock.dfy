// The clock of clock/clock.go as an object: lists of timers linked through the timers.
module Clocks {
  import opened Options
  import opened Words
  import opened ClockSpec
  import opened ClockConserve
  import opened ClockTiming
  import opened ClockSends
  import opened TimerRings
  import opened TimerLists

  // The sentinels are those of the lists in use.
  ghost predicate Rooted(tw: map<Place, TimerNode>, objs: map<Ref, TimerNode>, lists: map<Place, seq<Timer>>) {
    && tw.Keys == lists.Keys
    && (forall p :: p in tw <==> Root(p) in objs)
    && (forall p :: p in tw ==> tw[p] == objs[Root(p)])
  }

  // The index leads to the timers it should.
  ghost predicate Indexed(locs: map<int, TimerNode>, objs: map<Ref, TimerNode>, vals: map<int, Timer>,
                          index: map<int, Timer>) {
    && locs.Keys == index.Keys
    && (forall id :: id in locs ==> T(id) in objs && locs[id] == objs[T(id)])
    && (forall id :: id in locs ==> id in vals && vals[id] == index[id])
  }

  lemma {:induction false} SameRoots(tw: map<Place, TimerNode>, objs: map<Ref, TimerNode>,
                                     lists: map<Place, seq<Timer>>, lists1: map<Place, seq<Timer>>)
    requires Rooted(tw, objs, lists) && lists1.Keys == lists.Keys
    ensures Rooted(tw, objs, lists1)
  {
  }

  lemma {:induction false} NewRoot(tw: map<Place, TimerNode>, locs: map<int, TimerNode>, objs: map<Ref, TimerNode>,
                                   vals: map<int, Timer>, w: Wheel, p: Place, root: TimerNode)
    requires Rooted(tw, objs, w.tw) && Indexed(locs, objs, vals, w.locs) && p !in tw
    ensures Rooted(tw[p := root], objs[Root(p) := root], w.tw[p := []])
    ensures Indexed(locs, objs[Root(p) := root], vals, w.locs)
  {
  }

  lemma {:induction false} NewEntry(tw: map<Place, TimerNode>, locs: map<int, TimerNode>, objs: map<Ref, TimerNode>,
                                    vals: map<int, Timer>, w: Wheel, id: int, t: TimerNode, v: Timer)
    requires Rooted(tw, objs, w.tw) && Indexed(locs, objs, vals, w.locs) && id !in vals
    ensures Rooted(tw, objs[T(id) := t], w.tw) && Indexed(locs, objs[T(id) := t], vals[id := v], w.locs)
  {
  }

  // Making an empty list changes nothing.
  lemma {:induction false} ListMade(w: Wheel, p: Place, t: Timer)
    requires Apart(w.tw) && Unlisted(w.tw, t.id)
    ensures var w1 := w.(tw := w.tw[p := At(w.tw, p)]);
            Apart(w1.tw) && Unlisted(w1.tw, t.id) && Put(w1, p, t) == Put(w, p, t)
  {
    var tw1 := w.tw[p := At(w.tw, p)];
    forall q | q in tw1 ensures Different(IdsOf(tw1[q])) && Misses(tw1[q], t.id) {
      assert q in w.tw ==> Different(IdsOf(w.tw[q])) && Misses(w.tw[q], t.id);
    }
    forall q, r | q in tw1 && r in tw1 && q != r ensures Disjoint(tw1[q], tw1[r]) {
      assert q in w.tw && r in w.tw ==> Disjoint(w.tw[q], w.tw[r]);
    }
    assert tw1[p := At(w.tw, p) + [t]] == w.tw[p := At(w.tw, p) + [t]];
  }

  class Clock {
    const links: Links
    var slot: seq<nat>
    var tw: map<Place, TimerNode>  // the sentinels of the lists in use
    var locs: map<int, TimerNode>
    var lastTime: int
    var genId: int
    const channels: Channels
    ghost var w: Wheel

    ghost predicate Plain()
      reads this
    {
      && slot == w.slot && Pointers(slot) && lastTime == w.lastTime && genId == w.genId
      && tw.Keys == w.tw.Keys && locs.Keys == w.locs.Keys
    }

    ghost predicate Linked()
      reads this, links, links.nodes
    {
      && links.Valid() && Rooted(tw, links.objs, w.tw) && Indexed(locs, links.objs, links.vals, w.locs)
      && AllSpelled(links.mem, w.tw) && forall id :: id in links.vals ==> id <= genId
    }

    ghost predicate Sound()
      reads this, links, links.nodes
    {
      Plain() && forall k {:trigger Asked(k)} :: Asked(k) ==> Linked()
    }

    ghost predicate Mine(t: TimerNode)
      reads links
    {
      links.Has(t) && t.ref == T(t.id) && t.id in links.vals
    }

    constructor (now: int)
      ensures Sound() && w == NewWheel(now) && channels.out == [] && fresh(channels) && fresh(links)
      ensures fresh(links.nodes)
    {
      links := new Links();
      slot, tw, locs, lastTime, genId := [0, 0, 0, 0], map[], map[], now, 0;
      channels := new Channels();
      w := NewWheel(now);
    }

    ghost predicate Grown(objs: map<Ref, TimerNode>, nodes: set<TimerNode>)
      reads links
    {
      nodes <= links.nodes && forall id :: T(id) in objs ==> T(id) in links.objs && links.objs[T(id)] == objs[T(id)]
    }

    method MakeList(p: Place)
      requires Sound() && p !in tw
      modifies this`tw, this`w, links
      ensures Sound() && p in tw && w == old(w).(tw := old(w).tw[p := []])
      ensures fresh(links.nodes - old(links.nodes)) && links.vals == old(links.vals)
      ensures Grown(old(links.objs), old(links.nodes))
    {
      assert Asked(0);
      NewAll(links.mem, w.tw, Root(p), Cell(Some(Root(p)), Some(Root(p))), p);
      ghost var objs := links.objs;
      var root := links.NewList(p);
      NewRoot(tw, locs, objs, links.vals, w, p, root);
      tw := tw[p := root];
      w := w.(tw := w.tw[p := []]);
    }

    // The list at p, which is made when it is first needed.
    method ListAt(p: Place)
      requires Sound()
      modifies this`tw, this`w, links
      ensures Sound() && p in tw && w == old(w).(tw := old(w).tw[p := At(old(w).tw, p)])
      ensures fresh(links.nodes - old(links.nodes)) && links.vals == old(links.vals)
      ensures Grown(old(links.objs), old(links.nodes))
    {
      if p !in tw {
        MakeList(p);
      } else {
        assert w.tw[p := At(w.tw, p)] == w.tw;
      }
    }

    // Link t in at the back of the list at p.
    method Hook(p: Place, t: TimerNode)
      requires Sound() && p in tw && Mine(t) && Apart(w.tw) && Unlisted(w.tw, t.id)
      modifies this`w, links`mem, links.nodes`next, links.nodes`prev
      ensures Sound() && w == old(w).(tw := old(w).tw[p := old(w).tw[p] + [links.vals[t.id]]])
    {
      assert Asked(0);
      ghost var v := links.vals[t.id];
      assert links.Mirrored(Root(p)) && links.Shows(t.id);
      PushAll(links.mem, w.tw, p, v);
      SameRoots(tw, links.objs, w.tw, w.tw[p := w.tw[p] + [v]]);
      w := w.(tw := w.tw[p := w.tw[p] + [v]]);
      links.PushBack(tw[p], t);
    }

    // Unlink t, which leaves the lists tw1.
    method Unhook(t: TimerNode, ghost tw1: map<Place, seq<Timer>>)
      requires Sound() && links.Has(t) && Between(links.mem, t.ref)
      requires tw1.Keys == w.tw.Keys && AllSpelled(Unlinked(links.mem, t.ref), tw1)
      modifies this`w, links`mem, links.nodes`next, links.nodes`prev
      ensures Sound() && w == old(w).(tw := tw1)
    {
      assert Asked(0);
      w := w.(tw := tw1);
      var r := links.RemoveFromList(t);
    }

    method Index(t: TimerNode)
      requires Sound() && Mine(t)
      modifies this`w, this`locs
      ensures Sound() && w == old(w).(locs := old(w).locs[t.id := links.vals[t.id]])
    {
      assert Asked(0);
      w := w.(locs := w.locs[t.id := links.vals[t.id]]);
      locs := locs[t.id := t];
    }

    method Unindex(id: int)
      requires Sound()
      modifies this`w, this`locs
      ensures Sound() && w == old(w).(locs := old(w).locs - {id})
    {
      assert Asked(0);
      w := w.(locs := w.locs - {id});
      locs := locs - {id};
    }

    method PutTimer(p: Place, t: TimerNode)
      requires Sound() && Mine(t) && Apart(w.tw) && Unlisted(w.tw, t.id)
      modifies this`tw, this`locs, this`w, links, links.nodes`next, links.nodes`prev
      ensures Sound() && w == Put(old(w), p, old(links.vals)[t.id])
      ensures fresh(links.nodes - old(links.nodes)) && links.vals == old(links.vals)
      ensures Grown(old(links.objs), old(links.nodes))
    {
      assert Asked(0);
      ListMade(w, p, links.vals[t.id]);
      ListAt(p);
      Hook(p, t);
      Index(t);
    }

    // Take the first timer out of the list at p.
    method PopAt(p: Place) returns (t: TimerNode)
      requires Sound() && Poppable(w, p)
      modifies this`w, links`mem, links.nodes`next, links.nodes`prev
      ensures Sound() && w == Popped(old(w), p)
      ensures Mine(t) && t.Value() == old(w).tw[p][0] == links.vals[t.id]
    {
      assert Asked(0);
      ghost var id := w.tw[p][0].id;
      UnlinkAll(links.mem, w.tw, p, 0);
      assert w.tw[p][..0] + w.tw[p][0 + 1..] == w.tw[p][1..];
      FirstIs(links.mem, p, w.tw[p]);
      assert links.Mirrored(Root(p)) && links.Mirrored(T(id)) && links.Shows(id);
      t := tw[p].next;
      Unhook(t, w.tw[p := w.tw[p][1..]]);
    }

    // Unlink the timer of this id and drop it from the index.
    method DelTimer(id: int, ghost p: Place, ghost k: nat) returns (t: TimerNode?)
      requires Sound() && Apart(w.tw) && (id in locs ==> IsAt(w, id, p, k))
      modifies this`w, this`locs, links`mem, links.nodes`next, links.nodes`prev
      ensures Sound() && (t == null <==> id !in old(w).locs)
      ensures w == if t == null then old(w) else Del(old(w), id)
      ensures t != null ==> Mine(t) && t.id == id && links.vals[id] == old(w).locs[id]
    {
      assert Asked(0);
      if id !in locs {
        return null;
      }
      t := locs[id];
      UnlinkAll(links.mem, w.tw, p, k);
      DelIs(w, p, k);
      assert links.Mirrored(T(id)) && links.Shows(id);
      Unhook(t, Del(w, id).tw);
      Unindex(id);
    }

    ghost predicate Valid()
      reads this, links, links.nodes
    {
      Sound() && Conserved(w)
    }

    // Only the history changes.
    ghost method Note(w1: Wheel)
      requires Sound() && w1 == w.(n := w1.n, due := w1.due, log := w1.log, cancelled := w1.cancelled)
      modifies this`w
      ensures Sound() && w == w1
    {
      w := w1;
    }

    ghost method NoteArmed(id: int, when: int)
      requires Sound()
      modifies this`w
      ensures Sound() && w == Arm(old(w), id, when)
    {
      Note(Arm(w, id, when));
    }

    // The level and slot for a timer that many ticks ahead.
    method FindPlace(ticks: nat) returns (p: Place)
      requires Pointers(slot)
      ensures p == PlaceFor(slot, ticks)
    {
      for level := 0 to LEVELS
        invariant forall l :: 0 <= l < level ==> ticks >= Reach(l)
      {
        if ticks < Reach(level) {
          return Place(level, (ticks / Unit(level) + slot[level]) % Slots(level));
        }
      }
      return Place(3, Slots(3) - 1);
    }

    method AddTimer(t: TimerNode)
      requires Sound() && Mine(t) && Apart(w.tw) && Unlisted(w.tw, t.id)
      modifies this`tw, this`locs, this`w, links, links.nodes`next, links.nodes`prev
      ensures Sound() && w == Add(old(w), old(links.vals)[t.id])
      ensures fresh(links.nodes - old(links.nodes)) && links.vals == old(links.vals)
      ensures Grown(old(links.objs), old(links.nodes))
    {
      assert Asked(0);
      assert links.Mirrored(T(t.id)) && links.Shows(t.id);
      var p := FindPlace(TicksTo(t.when, lastTime));
      PutTimer(p, t);
    }

    method Allocate(id: int, when: int, data: int, sink: Sink) returns (t: TimerNode)
      requires Sound() && id == genId + 1
      modifies this`genId, this`w, links
      ensures Sound() && w == old(w).(genId := id) && Mine(t) && t.id == id
      ensures links.vals == old(links.vals)[id := Timer(id, when, data, sink)]
      ensures fresh(links.nodes - old(links.nodes)) && old(links.nodes) <= links.nodes
    {
      assert Asked(0);
      NewAll(links.mem, w.tw, T(id), Cell(None, None), Place(0, 0));
      ghost var objs, vals := links.objs, links.vals;
      t := links.NewTimer(id, when, data, sink);
      NewEntry(tw, locs, objs, vals, w, id, t, Timer(id, when, data, sink));
      genId := id;
      w := w.(genId := id);
    }

    method Create(when: int, data: int, sink: Sink) returns (id: int)
      requires Sound() && Apart(w.tw) && Unlisted(w.tw, genId + 1)
      modifies this, links, links.nodes
      ensures Sound() && id == old(genId) + 1 && w == Add(old(w).(genId := id), Timer(id, when, data, sink))
      ensures fresh(links.nodes - old(links.nodes))
    {
      id := genId + 1;
      var t := Allocate(id, when, data, sink);
      AddTimer(t);
    }

    method Enter(when: int, data: int, sink: Sink) returns (id: int)
      requires Sound() && Apart(w.tw) && Unlisted(w.tw, genId + 1)
      modifies this, links, links.nodes
      ensures Sound() && w == New(old(w), when, data, sink) && id == old(genId) + 1
      ensures fresh(links.nodes - old(links.nodes))
    {
      id := Create(when, data, sink);
      NoteArmed(id, when);
    }

    method NewTimer(when: int, data: int, sink: Sink) returns (id: int)
      requires Valid()
      modifies this, links, links.nodes
      ensures Valid() && w == New(old(w), when, data, sink) && id == old(genId) + 1
      ensures fresh(links.nodes - old(links.nodes))
    {
      NewConserves(w, when, data, sink);
      NewApart(w);
      id := Enter(when, data, sink);
    }

    method CancelTimer(id: int) returns (ok: bool)
      requires Valid()
      modifies this, links, links.nodes
      ensures Valid() && w == Cancel(old(w), id) && (ok <==> id in old(w).locs) && links.nodes == old(links.nodes)
    {
      CancelConserves(w, id);
      ghost var p, k := WhereIs(w, id);
      var t := DelTimer(id, p, k);
      ok := t != null;
      Note(Cancel(old(w), id));
    }

    method UpdateTimer(id: int, when: int) returns (ok: bool)
      requires Valid()
      modifies this, links, links.nodes
      ensures Valid() && w == Update(old(w), id, when) && (ok <==> id in old(w).locs)
      ensures fresh(links.nodes - old(links.nodes))
    {
      UpdateConserves(w, id, when);
      ghost var p, k := WhereIs(w, id);
      DelApart(w, id);
      ok := Reset(id, when, p, k);
      if ok { NoteArmed(id, when); }
    }

    method Readd(t: TimerNode, when: int)
      requires Sound() && Mine(t) && t.id !in locs && Apart(w.tw) && Unlisted(w.tw, t.id)
      modifies this, links, links.nodes
      ensures Sound() && t.id in old(links.vals) && w == Add(old(w), old(links.vals)[t.id].(when := when))
      ensures fresh(links.nodes - old(links.nodes))
    {
      assert Asked(0);
      Rearm(t, when);
      AddTimer(t);
    }

    method Reset(id: int, when: int, ghost p: Place, ghost k: nat) returns (ok: bool)
      requires Sound() && Apart(w.tw) && (id in locs ==> IsAt(w, id, p, k))
      requires Apart(Del(w, id).tw) && Unlisted(Del(w, id).tw, id)
      modifies this, links, links.nodes
      ensures Sound() && (ok <==> id in old(w).locs) && (!ok ==> w == old(w))
      ensures ok ==> w == Add(Del(old(w), id), old(w).locs[id].(when := when))
      ensures fresh(links.nodes - old(links.nodes))
    {
      var t := DelTimer(id, p, k);
      ok := t != null;
      if ok { Readd(t, when); }
    }

    // Change the deadline of a timer that is not indexed.
    method Rearm(t: TimerNode, when: int)
      requires Sound() && Mine(t) && t.id !in locs
      modifies links`vals, t`when
      ensures Sound() && t.id in old(links.vals)
      ensures links.vals == old(links.vals)[t.id := old(links.vals)[t.id].(when := when)]
    {
      assert Asked(0);
      links.SetWhen(t, when);
    }

    // ---- ticks ----------------------------------------------------------------------

    ghost predicate InHand(t: TimerNode, v: Timer)
      reads this, links
    {
      && Mine(t) && links.vals[t.id] == v && v.id == t.id
      && Apart(w.tw) && Unlisted(w.tw, t.id)
    }

    // Take the first timer of the list at p, and out of the index.
    method TakeFirst(p: Place) returns (t: TimerNode)
      requires Sound() && Poppable(w, p)
      modifies this`w, this`locs, links`mem, links.nodes`next, links.nodes`prev
      ensures Sound() && w == Popped(old(w), p).(locs := old(w).locs - {old(w).tw[p][0].id})
      ensures InHand(t, old(w).tw[p][0])
      ensures t.when == old(w).tw[p][0].when && t.data == old(w).tw[p][0].data && t.sink == old(w).tw[p][0].sink
    {
      t := PopAt(p);
      Unindex(t.id);
    }

    ghost method NoteAttempt(w1: Wheel, v: Timer, now: int, sent: bool)
      requires Sound() && w == w1.(locs := w1.locs - {v.id})
      modifies this`w
      ensures Sound() && w == Attempted(w1, v, now, sent)
    {
      Note(Attempted(w1, v, now, sent));
    }

    // Deliver t, or put it back for the next tick if its receiver is full.
    method TryDeliver(t: TimerNode, now: int, busy: set<int>, ghost w1: Wheel, ghost v: Timer) returns (sent: bool)
      requires Sound() && InHand(t, v) && t.sink == v.sink && v.when <= now && w == w1.(locs := w1.locs - {v.id})
      modifies this`tw, this`locs, this`w, links, links.nodes`next, links.nodes`prev
      ensures Sound() && fresh(links.nodes - old(links.nodes)) && (sent <==> v.sink.Batch? || v.id !in busy)
      ensures sent ==> w == Attempted(w1, v, now, true)
      ensures !sent ==> w == Put(Attempted(w1, v, now, false), Place(0, (slot[0] + 1) % Slots(0)), v)
    {
      sent := t.sink.Batch? || t.id !in busy;
      NoteAttempt(w1, v, now, sent);
      if !sent { PutTimer(Place(0, (slot[0] + 1) % Slots(0)), t); }
    }

    method PutAgain(t: TimerNode, ghost w1: Wheel, ghost v: Timer)
      requires Sound() && InHand(t, v) && w == w1.(locs := w1.locs - {v.id})
      modifies this`tw, this`locs, this`w, links, links.nodes`next, links.nodes`prev
      ensures Sound() && w == Add(w1, v) && fresh(links.nodes - old(links.nodes))
    {
      AddAgain(w1, v);
      AddTimer(t);
    }

    method Dispatch(t: TimerNode, now: int, busy: set<int>, ghost w1: Wheel, ghost v: Timer) returns (sent: bool)
      requires Sound() && InHand(t, v) && t.Value() == v && w == w1.(locs := w1.locs - {v.id})
      modifies this`tw, this`locs, this`w, links, links.nodes`next, links.nodes`prev
      ensures Sound() && w == Handled(w1, v, now, busy) && fresh(links.nodes - old(links.nodes))
      ensures sent <==> v.when <= now && (v.sink.Batch? || v.id !in busy)
    {
      if t.when <= now {
        sent := TryDeliver(t, now, busy, w1, v);
      } else {
        sent := false;
        PutAgain(t, w1, v);
      }
    }

    // Try to deliver the first timer of the current bottom slot.
    method TriggerOne(now: int, busy: set<int>) returns (t: TimerNode, sent: bool)
      requires Sound() && Poppable(w, Place(0, slot[0]))
      modifies this`tw, this`locs, this`w, links, links.nodes`next, links.nodes`prev
      ensures Sound() && fresh(links.nodes - old(links.nodes))
      ensures var p := Place(0, slot[0]); var v := old(w).tw[p][0];
              && w == Handled(Popped(old(w), p), v, now, busy)
              && v.id == t.id && v.data == t.data && v.sink == t.sink
              && (sent <==> v.when <= now && (v.sink.Batch? || v.id !in busy))
    {
      ghost var w1, v := Popped(w, Place(0, slot[0])), w.tw[Place(0, slot[0])][0];
      t := TakeFirst(Place(0, slot[0]));
      sent := Dispatch(t, now, busy, w1, v);
    }

    // Handle the first timer of the current bottom slot, and send what it promises.
    method TriggerNext(now: int, busy: set<int>, batchs: map<nat, seq<Promise>>)
      returns (batchs1: map<nat, seq<Promise>>)
      requires Sound() && Poppable(w, Place(0, slot[0])) && Sends(channels.out, batchs, w.log)
      modifies this`tw, this`locs, this`w, links, links.nodes`next, links.nodes`prev, channels
      ensures Sound() && fresh(links.nodes - old(links.nodes)) && Sends(channels.out, batchs1, w.log)
      ensures w == Handled(Popped(old(w), Place(0, slot[0])), old(w).tw[Place(0, slot[0])][0], now, busy)
    {
      ghost var w1, v := Popped(w, Place(0, slot[0])), w.tw[Place(0, slot[0])][0];
      ghost var e := Entry(w1, v, now, busy);
      HandledLog(w1, v, now, busy);
      var t, sent := TriggerOne(now, busy);
      batchs1 := channels.Emit(sent, t.sink, Promise(t.id, now, t.data), batchs, w1.log, w.log, e);
    }

    method IsEmptyAt(p: Place) returns (r: bool)
      requires Sound() && p in tw
      ensures r <==> w.tw[p] == []
    {
      assert Asked(0);
      assert links.Mirrored(Root(p));
      EmptyIs(links.mem, p, w.tw[p]);
      r := links.IsEmpty(tw[p]);
    }

    method TriggerMore(now: int, busy: set<int>, batchs: map<nat, seq<Promise>>, ghost w0: Wheel, ghost k: nat)
      returns (batchs1: map<nat, seq<Promise>>, empty: bool)
      requires Sound() && Sends(channels.out, batchs, w.log) && Midway(w0, w, now, busy, k)
      requires Poppable(w, Place(0, slot[0]))
      modifies this`tw, this`locs, this`w, links, links.nodes`next, links.nodes`prev, channels
      ensures Sound() && fresh(links.nodes - old(links.nodes)) && Sends(channels.out, batchs1, w.log)
      ensures Midway(w0, w, now, busy, k + 1) && (empty <==> w.tw[Place(0, slot[0])] == [])
    {
      MidwayNext(w0, w, now, busy, k);
      batchs1 := TriggerNext(now, busy, batchs);
      empty := IsEmptyAt(Place(0, slot[0]));
    }

    method TriggerDrain(now: int, busy: set<int>, ghost w0: Wheel) returns (batchs: map<nat, seq<Promise>>)
      requires Sound() && w == w0 && Kept(w0) && Place(0, slot[0]) in tw && Sends(channels.out, map[], w.log)
      modifies this`tw, this`locs, this`w, links, links.nodes`next, links.nodes`prev, channels
      ensures Sound() && fresh(links.nodes - old(links.nodes)) && Sends(channels.out, batchs, w.log)
      ensures w == Trigger(w0, now, busy)
    {
      batchs := map[];
      ghost var k: nat := 0;
      MidwayStarts(w0, now, busy);
      var empty := IsEmptyAt(Place(0, slot[0]));
      while !empty
        invariant Sound() && fresh(links.nodes - old(links.nodes)) && Sends(channels.out, batchs, w.log)
        invariant Midway(w0, w, now, busy, k) && (empty <==> w.tw[Place(0, slot[0])] == [])
        decreases |w.tw[Place(0, slot[0])]|
      {
        MidwayPops(w0, w, now, busy, k);
        batchs, empty := TriggerMore(now, busy, batchs, w0, k);
        k := k + 1;
      }
      MidwayDone(w0, w, now, busy, k);
    }

    // Deliver the timers of the current bottom slot.
    method TriggerSlot(now: int, busy: set<int>)
      requires Valid() && Sends(channels.out, map[], w.log)
      modifies this`tw, this`locs, this`w, links, links.nodes`next, links.nodes`prev, channels
      ensures Sound() && fresh(links.nodes - old(links.nodes)) && Sends(channels.out, map[], w.log)
      ensures w == Trigger(old(w), now, busy)
    {
      if Place(0, slot[0]) !in tw { return; }
      var batchs := TriggerDrain(now, busy, w);
      channels.SendBatches(batchs, w.log);
    }

    // Place the first timer of the current slot of level i again.
    method MoveFirst(i: nat, tk: int)
      requires Sound() && i < LEVELS && Poppable(w, Place(i, slot[i]))
      modifies this`tw, this`locs, this`w, links, links.nodes`next, links.nodes`prev
      ensures Sound() && fresh(links.nodes - old(links.nodes)) && w == Moved(old(w), i, tk)
    {
      var t := PopAt(Place(i, slot[i]));
      var p := FindPlace(TicksTo(t.when, tk));
      PutTimer(p, t);
    }

    method MoveMore(i: nat, tk: int, ghost w0: Wheel, ghost k: nat) returns (empty: bool)
      requires Sound() && i < LEVELS && MidCascade(w0, w, i, tk, k) && Drainable(w0, i, tk)
      requires Poppable(w, Place(i, slot[i]))
      modifies this`tw, this`locs, this`w, links, links.nodes`next, links.nodes`prev
      ensures Sound() && fresh(links.nodes - old(links.nodes))
      ensures MidCascade(w0, w, i, tk, k + 1) && (empty <==> w.tw[Place(i, slot[i])] == [])
    {
      CascadeNext(w0, w, i, tk, k);
      MoveFirst(i, tk);
      empty := IsEmptyAt(Place(i, slot[i]));
    }

    method MoveAll(i: nat, tk: int, ghost w0: Wheel)
      requires Sound() && w == w0 && i < LEVELS && Place(i, slot[i]) in tw && Drainable(w0, i, tk)
      modifies this`tw, this`locs, this`w, links, links.nodes`next, links.nodes`prev
      ensures Sound() && fresh(links.nodes - old(links.nodes)) && w == Cascaded(w0, i, tk)
    {
      ghost var k: nat := 0;
      CascadeStarts(w0, i, tk);
      var empty := IsEmptyAt(Place(i, slot[i]));
      while !empty
        invariant Sound() && fresh(links.nodes - old(links.nodes))
        invariant MidCascade(w0, w, i, tk, k) && (empty <==> w.tw[Place(i, slot[i])] == [])
        decreases |w.tw[Place(i, slot[i])]|
      {
        CascadePopsOne(w0, w, i, tk, k);
        empty := MoveMore(i, tk, w0, k);
        k := k + 1;
      }
      CascadeIsDone(w0, w, i, tk, k);
    }

    method TurnPointer(i: nat)
      requires Sound() && i < LEVELS
      modifies this`slot, this`w
      ensures Sound() && w == Turn(old(w), i)
    {
      w := Turn(w, i);
      slot := slot[i := (slot[i] + 1) % Slots(i)];
    }

    // Turn level i and place the timers of its new slot again.
    method TurnLevel(i: nat, tk: int)
      requires Valid() && i < LEVELS && !Stuck(Turn(w, i), i, tk)
      modifies this`slot, this`tw, this`locs, this`w, links, links.nodes`next, links.nodes`prev
      ensures Valid() && fresh(links.nodes - old(links.nodes)) && w == CascadeLevel(old(w), i, tk)
    {
      LevelConserves(w, i, tk);
      TurnPointer(i);
      if Place(i, slot[i]) in tw { MoveAll(i, tk, w); }
    }

    method TurnNext(i: nat, tk: int, ghost goal: Wheel)
      requires Valid() && 0 < i < LEVELS && slot[i - 1] == 0 && CascadesTo(w, i, tk, goal)
      modifies this`slot, this`tw, this`locs, this`w, links, links.nodes`next, links.nodes`prev
      ensures Valid() && fresh(links.nodes - old(links.nodes)) && CascadesTo(w, i + 1, tk, goal)
    {
      CascadesOn(w, i, tk, goal);
      TurnLevel(i, tk);
    }

    // Turn the levels above the bottom as far as they turn.
    method TurnLevels(tk: int, ghost goal: Wheel)
      requires Valid() && CascadesTo(w, 1, tk, goal)
      modifies this`slot, this`tw, this`locs, this`w, links, links.nodes`next, links.nodes`prev
      ensures Valid() && fresh(links.nodes - old(links.nodes)) && w == goal
    {
      var i: nat := 1;
      while i < LEVELS && slot[i - 1] == 0
        invariant Valid() && 0 < i <= LEVELS && fresh(links.nodes - old(links.nodes)) && CascadesTo(w, i, tk, goal)
        decreases LEVELS - i
      {
        TurnNext(i, tk, goal);
        i := i + 1;
      }
      CascadesDone(w, i, tk, goal);
    }

    // One tick for the time tk, the clock reading now.
    method OneTick(now: int, tk: int, busy: set<int>)
      requires Valid() && Sends(channels.out, map[], w.log) && TickEnds(w, now, tk, busy)
      modifies this, links, links.nodes, channels
      ensures Valid() && fresh(links.nodes - old(links.nodes)) && Sends(channels.out, map[], w.log)
      ensures w == Tick(old(w), now, tk, busy)
    {
      TriggeredConserves(w, now, busy);
      StartTick();
      TriggerSlot(now, busy);
      TurnLevels(tk, Cascade(w, 1, tk));
    }

    method StartTick()
      requires Sound()
      modifies this`slot, this`w
      ensures Sound() && w == Started(old(w))
    {
      Note(w.(n := w.n + 1));
      TurnPointer(0);
    }

    method SetTime(now: int)
      requires Sound()
      modifies this`lastTime, this`w
      ensures Sound() && w == CaughtUp(old(w), now)
    {
      w := CaughtUp(w, now);
      lastTime := lastTime + SI * Quotient(now - lastTime, SI);
    }

    // The ticks for the times from tk on that have come, after n ticks so far.
    method RunTicks(now: int, from: int, busy: nat -> set<int>, n: nat, ghost goal: Wheel)
      requires Valid() && Sends(channels.out, map[], w.log) && n == w.n
      requires TicksTowards(w, now, from, lastTime, busy, goal)
      modifies this, links, links.nodes, channels
      ensures Valid() && fresh(links.nodes - old(links.nodes)) && Sends(channels.out, map[], w.log) && w == goal
    {
      var tk, k := from, n;
      while tk <= lastTime
        invariant Valid() && fresh(links.nodes - old(links.nodes)) && Sends(channels.out, map[], w.log) && k == w.n
        invariant TicksTowards(w, now, tk, lastTime, busy, goal)
        decreases lastTime - tk
      {
        TicksOn(w, now, tk, lastTime, busy, goal);
        OneTick(now, tk, busy(k));
        tk, k := tk + SI, k + 1;
      }
    }

    method CatchUpTo(now: int, busy: nat -> set<int>, n: nat, ghost goal: Wheel)
      requires Valid() && Sends(channels.out, map[], w.log) && n == w.n && Reaches(w, now, busy, goal)
      modifies this, links, links.nodes, channels
      ensures Valid() && fresh(links.nodes - old(links.nodes)) && Sends(channels.out, map[], w.log) && w == goal
    {
      var tk := lastTime + SI;
      SetTime(now);
      RunTicks(now, tk, busy, n, goal);
    }

    // Catch up with the time now, after n ticks so far.
    method CatchUp(now: int, busy: nat -> set<int>, n: nat)
      requires Valid() && Sends(channels.out, map[], w.log) && n == w.n && Ends(w, OpElapse(now, busy))
      modifies this, links, links.nodes, channels
      ensures Valid() && fresh(links.nodes - old(links.nodes)) && Sends(channels.out, map[], w.log)
      ensures w == Elapse(old(w), now, busy)
    {
      ghost var goal := ElapseReaches(w, now, busy);
      CatchUpTo(now, busy, n, goal);
    }
  }

  // The first timer at p can be taken out: nothing else has its id.
  ghost predicate Poppable(w: Wheel, p: Place) {
    && p in w.tw && w.tw[p] != [] && Apart(w.tw)
    && var v := w.tw[p][0];
       Apart(Popped(w, p).tw) && Unlisted(Popped(w, p).tw, v.id) && v.id in w.locs && w.locs[v.id] == v
  }

  lemma {:induction false} NewApart(w: Wheel)
    requires Conserved(w)
    ensures Apart(w.tw) && Unlisted(w.tw, w.genId + 1)
  {
    ListedApart(w.tw, w.locs, {});
  }

  lemma {:induction false} CanPop(w: Wheel, p: Place)
    requires Listed(w.tw, w.locs, {}) && p in w.tw && w.tw[p] != []
    ensures Poppable(w, p)
  {
    assert In(w.tw, p, w.tw[p][0]);
    ListedApart(w.tw, w.locs, {});
    PopListed(w.tw, w.locs, p);
    ListedApart(Popped(w, p).tw, w.locs, {w.tw[p][0].id});
  }

  // What a trigger step does with the timer v it takes.
  ghost function Handled(w1: Wheel, v: Timer, now: int, busy: set<int>): Wheel
    requires Pointers(w1.slot)
  {
    if v.when > now then Add(w1, v)
    else if v.sink.Batch? || v.id !in busy then Attempted(w1, v, now, true)
    else Put(Attempted(w1, v, now, false), Place(0, (w1.slot[0] + 1) % Slots(0)), v)
  }

  ghost function Entry(w1: Wheel, v: Timer, now: int, busy: set<int>): Attempt {
    Attempt(v, DueOf(w1, v.id), w1.n, now, v.sink.Batch? || v.id !in busy)
  }

  lemma {:induction false} HandledLog(w1: Wheel, v: Timer, now: int, busy: set<int>)
    requires Pointers(w1.slot)
    ensures Handled(w1, v, now, busy).log == if v.when <= now then w1.log + [Entry(w1, v, now, busy)] else w1.log
  {
  }

  lemma {:induction false} StepIs(w: Wheel, now: int, busy: set<int>)
    requires Pointers(w.slot) && At(w.tw, Place(0, w.slot[0])) != []
    ensures var p := Place(0, w.slot[0]); TriggerStep(w, now, busy) == Handled(Popped(w, p), w.tw[p][0], now, busy)
  {
  }

  lemma {:induction false} AddAgain(w: Wheel, t: Timer)
    requires Pointers(w.slot)
    ensures Add(w.(locs := w.locs - {t.id}), t) == Add(w, t)
  {
    assert (w.locs - {t.id})[t.id := t] == w.locs[t.id := t];
  }

  lemma {:induction false} DelApart(w: Wheel, id: int)
    requires Listed(w.tw, w.locs, {})
    ensures Apart(Del(w, id).tw) && Unlisted(Del(w, id).tw, id)
  {
    DelListed(w, id);
    ListedApart(Del(w, id).tw, w.locs - {id}, {});
  }

  lemma {:induction false} EmptyIs(m: Mem, p: Place, s: seq<Timer>)
    requires Spelled(m, p, IdsOf(s))
    ensures Root(p) in m && (m[Root(p)].next == Some(Root(p)) <==> s == [])
  {
    assert Joined(m, Around(p, IdsOf(s), 0), Around(p, IdsOf(s), 1));
  }

  // No timer of w is lost or listed twice.
  ghost predicate Kept(w: Wheel) {
    Pointers(w.slot) && forall k {:trigger Asked(k)} :: Asked(k) ==> Conserved(w)
  }

  // w is w0 after k trigger steps.
  ghost predicate Midway(w0: Wheel, w: Wheel, now: int, busy: set<int>, k: nat) {
    && Pointers(w0.slot) && w.slot == w0.slot
    && (forall j {:trigger Asked(j)} :: Asked(j) ==> w == TriggerSteps(w0, now, busy, k))
    && var p := Place(0, w0.slot[0]); p in w.tw && k + |w.tw[p]| == |At(w0.tw, p)|
  }

  lemma {:induction false} StepsThenOne(w: Wheel, now: int, busy: set<int>, k: nat)
    requires Pointers(w.slot)
    ensures TriggerStep(TriggerSteps(w, now, busy, k), now, busy) == TriggerSteps(w, now, busy, k + 1)
    decreases k
  {
    if k > 0 { StepsThenOne(TriggerStep(w, now, busy), now, busy, k - 1); }
  }

  lemma {:induction false} MidwayStarts(w: Wheel, now: int, busy: set<int>)
    requires Pointers(w.slot) && Place(0, w.slot[0]) in w.tw
    ensures Midway(w, w, now, busy, 0)
  {
  }

  lemma {:induction false} MidwayDone(w0: Wheel, w: Wheel, now: int, busy: set<int>, k: nat)
    requires Midway(w0, w, now, busy, k) && w.tw[Place(0, w0.slot[0])] == []
    ensures w == Trigger(w0, now, busy)
  {
    assert Asked(0);
  }

  lemma {:induction false} MidwayPops(w0: Wheel, w: Wheel, now: int, busy: set<int>, k: nat)
    requires Kept(w0) && Midway(w0, w, now, busy, k) && w.tw[Place(0, w0.slot[0])] != []
    ensures Poppable(w, Place(0, w0.slot[0]))
  {
    assert Asked(0);
    TriggerConserves(w0, now, busy, k);
    CanPop(w, Place(0, w0.slot[0]));
  }

  lemma {:induction false} MidwayNext(w0: Wheel, w: Wheel, now: int, busy: set<int>, k: nat)
    requires Midway(w0, w, now, busy, k) && w.tw[Place(0, w0.slot[0])] != []
    ensures var p := Place(0, w0.slot[0]); Midway(w0, Handled(Popped(w, p), w.tw[p][0], now, busy), now, busy, k + 1)
  {
    assert Asked(0);
    StepsThenOne(w0, now, busy, k);
    TriggerShrinks(w, now, busy);
    StepIs(w, now, busy);
  }

  ghost function Moved(w: Wheel, i: nat, tk: int): Wheel
    requires Pointers(w.slot) && i < LEVELS && Place(i, w.slot[i]) in w.tw && w.tw[Place(i, w.slot[i])] != []
  {
    var p := Place(i, w.slot[i]);
    Put(Popped(w, p), PlaceFor(w.slot, TicksTo(w.tw[p][0].when, tk)), w.tw[p][0])
  }

  // The list of level i that the pointers of w show can be drained.
  ghost predicate Drainable(w: Wheel, i: nat, tk: int) {
    && Pointers(w.slot) && i < LEVELS
    && forall k {:trigger Asked(k)} :: Asked(k) ==> Conserved(w) && !Stuck(w, i, tk)
  }

  // w is w0 after k cascade steps at level i, none of which put a timer back.
  ghost predicate MidCascade(w0: Wheel, w: Wheel, i: nat, tk: int, k: nat) {
    && i < LEVELS && Pointers(w0.slot) && w.slot == w0.slot
    && (forall j {:trigger Asked(j)} :: Asked(j) ==> w == CascadeSteps(w0, i, tk, k))
    && var p := Place(i, w0.slot[i]); p in w.tw && k <= |At(w0.tw, p)| && w.tw[p] == At(w0.tw, p)[k..]
  }

  ghost function Cascaded(w: Wheel, i: nat, tk: int): Wheel
    requires Pointers(w.slot) && i < LEVELS
  {
    CascadeSteps(w, i, tk, |At(w.tw, Place(i, w.slot[i]))|)
  }

  lemma {:induction false} CascadeStarts(w: Wheel, i: nat, tk: int)
    requires Pointers(w.slot) && i < LEVELS && Place(i, w.slot[i]) in w.tw
    ensures MidCascade(w, w, i, tk, 0)
  {
  }

  lemma {:induction false} CascadeIsDone(w0: Wheel, w: Wheel, i: nat, tk: int, k: nat)
    requires MidCascade(w0, w, i, tk, k) && w.tw[Place(i, w0.slot[i])] == []
    ensures w == Cascaded(w0, i, tk)
  {
    assert Asked(0);
  }

  lemma {:induction false} CascadeThenOne(w: Wheel, i: nat, tk: int, k: nat)
    requires Pointers(w.slot) && i < LEVELS
    ensures CascadeStep(CascadeSteps(w, i, tk, k), i, tk) == CascadeSteps(w, i, tk, k + 1)
    decreases k
  {
    if k > 0 { CascadeThenOne(CascadeStep(w, i, tk), i, tk, k - 1); }
  }

  lemma {:induction false} CascadePopsOne(w0: Wheel, w: Wheel, i: nat, tk: int, k: nat)
    requires Drainable(w0, i, tk) && MidCascade(w0, w, i, tk, k) && w.tw[Place(i, w0.slot[i])] != []
    ensures Poppable(w, Place(i, w0.slot[i]))
  {
    assert Asked(0);
    CascadeStepsConserve(w0, i, tk, k);
    CanPop(w, Place(i, w0.slot[i]));
  }

  lemma {:induction false} CascadeNext(w0: Wheel, w: Wheel, i: nat, tk: int, k: nat)
    requires MidCascade(w0, w, i, tk, k) && Drainable(w0, i, tk) && w.tw[Place(i, w0.slot[i])] != []
    ensures MidCascade(w0, Moved(w, i, tk), i, tk, k + 1)
  {
    assert Asked(0);
    var s := At(w0.tw, Place(i, w0.slot[i]));
    assert TicksTo(s[k].when, tk) >= HORIZON ==> Far(s, tk);
    CascadeThenOne(w0, i, tk, k);
    CascadeShrinks(w, i, tk);
  }

  lemma {:induction false} LevelConserves(w: Wheel, i: nat, tk: int)
    requires Pointers(w.slot) && i < LEVELS && Conserved(w)
    ensures Conserved(Turn(w, i)) && Conserved(CascadeLevel(w, i, tk))
  {
    var w1 := Turn(w, i);
    CascadeStepsConserve(w1, i, tk, |At(w1.tw, Place(i, w1.slot[i]))|);
  }

  lemma {:induction false} TriggeredConserves(w: Wheel, now: int, busy: set<int>)
    requires Pointers(w.slot) && Conserved(w)
    ensures Conserved(Started(w)) && Conserved(Trigger(Started(w), now, busy))
  {
    var w1 := Started(w);
    TriggerConserves(w1, now, busy, |At(w1.tw, Place(0, w1.slot[0]))|);
  }

  // Turning the levels of w from i on ends, and leads to goal.
  ghost predicate CascadesTo(w: Wheel, i: nat, tk: int, goal: Wheel) {
    Pointers(w.slot) && 0 < i <= LEVELS && CascadeEnds(w, i, tk) && Cascade(w, i, tk) == goal
  }

  lemma {:induction false} CascadesOn(w: Wheel, i: nat, tk: int, goal: Wheel)
    requires CascadesTo(w, i, tk, goal) && i < LEVELS && w.slot[i - 1] == 0
    ensures !Stuck(Turn(w, i), i, tk) && CascadesTo(CascadeLevel(w, i, tk), i + 1, tk, goal)
  {
  }

  lemma {:induction false} CascadesDone(w: Wheel, i: nat, tk: int, goal: Wheel)
    requires CascadesTo(w, i, tk, goal) && (i == LEVELS || w.slot[i - 1] != 0)
    ensures w == goal
  {
  }

  // The ticks for the times from tk to last end, and lead from w to goal.
  ghost predicate TicksTowards(w: Wheel, now: int, tk: int, last: int, busy: nat -> set<int>, goal: Wheel) {
    && AllEnd(EndsAt(now, busy), TickAt(now, busy), w, tk, last)
    && Repeat(TickAt(now, busy), w, tk, last) == goal
  }

  // Catching up with the time now leads from w to goal.
  ghost predicate Reaches(w: Wheel, now: int, busy: nat -> set<int>, goal: Wheel) {
    var w1 := CaughtUp(w, now); Conserved(w1) && TicksTowards(w1, now, w.lastTime + SI, w1.lastTime, busy, goal)
  }

  lemma {:induction false} ElapseReaches(w: Wheel, now: int, busy: nat -> set<int>) returns (goal: Wheel)
    requires Pointers(w.slot) && Conserved(w) && Ends(w, OpElapse(now, busy))
    ensures goal == Elapse(w, now, busy) && Reaches(w, now, busy, goal)
  {
    goal := Elapse(w, now, busy);
  }

  lemma {:induction false} TicksOn(w: Wheel, now: int, tk: int, last: int, busy: nat -> set<int>, goal: Wheel)
    requires TicksTowards(w, now, tk, last, busy, goal) && tk <= last
    ensures Pointers(w.slot) && TickEnds(w, now, tk, busy(w.n))
    ensures TicksTowards(Tick(w, now, tk, busy(w.n)), now, tk + SI, last, busy, goal)
  {
    var step := TickAt(now, busy);
    assert step(w, tk) == Tick(w, now, tk, busy(w.n));
  }

  lemma {:induction false} FirstIs(m: Mem, p: Place, s: seq<Timer>)
    requires Spelled(m, p, IdsOf(s)) && s != []
    ensures Root(p) in m && m[Root(p)].next == Some(T(s[0].id))
  {
    assert Joined(m, Around(p, IdsOf(s), 0), Around(p, IdsOf(s), 1));
  }

  ghost predicate IsAt(w: Wheel, id: int, p: Place, k: nat) {
    id in w.locs && w.locs[id].id == id && p in w.tw && k < |w.tw[p]| && w.tw[p][k] == w.locs[id]
  }

  // Where the timer of an indexed id is.
  lemma {:induction false} WhereIs(w: Wheel, id: int) returns (p: Place, k: nat)
    requires Listed(w.tw, w.locs, {})
    ensures Apart(w.tw) && (id in w.locs ==> IsAt(w, id, p, k))
  {
    ListedApart(w.tw, w.locs, {});
    if id in w.locs {
      p :| In(w.tw, p, w.locs[id]);
      k :| 0 <= k < |w.tw[p]| && w.tw[p][k] == w.locs[id];
    } else {
      p, k := Place(0, 0), 0;
    }
  }
}
