// The links of the intrusive circular lists of clock/timer.go, on values: what each timer and
// each sentinel points to.
module TimerRings {
  import opened Options
  import opened ClockSpec
  import opened ClockConserve

  datatype Ref = T(id: int) | Root(place: Place)
  datatype Cell = Cell(prev: Option<Ref>, next: Option<Ref>)
  type Mem = map<Ref, Cell>

  function WithNext(m: Mem, r: Ref, next: Ref): Mem
    requires r in m
  {
    m[r := m[r].(next := Some(next))]
  }

  function WithPrev(m: Mem, r: Ref, prev: Ref): Mem
    requires r in m
  {
    m[r := m[r].(prev := Some(prev))]
  }

  // t linked in before the sentinel.
  function PushedBack(m: Mem, root: Ref, t: Ref): Mem
    requires root in m && t in m && m[root].prev.Some? && m[root].prev.value in m
  {
    var tail := m[root].prev.value;
    WithPrev(WithNext(WithPrev(WithNext(m, tail, t), t, tail), t, root), root, t)
  }

  ghost predicate Between(m: Mem, t: Ref) {
    t in m && m[t].prev.Some? && m[t].prev.value in m && m[t].next.Some? && m[t].next.value in m
  }

  // t unlinked, its neighbours linked past it.
  function Unlinked(m: Mem, t: Ref): Mem
    requires Between(m, t)
  {
    var prev, next := m[t].prev.value, m[t].next.value;
    WithPrev(WithNext(m, prev, next), next, prev)[t := Cell(None, None)]
  }

  // ---- a list ------------------------------------------------------------------------------

  // The entry k steps after the sentinel of the list of these ids, which ends where it began.
  ghost function Around(p: Place, ids: seq<int>, k: nat): Ref {
    if 0 < k <= |ids| then T(ids[k - 1]) else Root(p)
  }

  ghost predicate Joined(m: Mem, a: Ref, b: Ref) {
    a in m && b in m && m[a].next == Some(b) && m[b].prev == Some(a)
  }

  ghost predicate Spelled(m: Mem, p: Place, ids: seq<int>) {
    forall k :: 0 <= k <= |ids| ==> Joined(m, Around(p, ids, k), Around(p, ids, k + 1))
  }

  ghost predicate Different(ids: seq<int>) {
    forall i, j :: 0 <= i < j < |ids| ==> ids[i] != ids[j]
  }

  ghost function Unindexed(ids: seq<int>, k: nat): seq<int>
    requires k < |ids|
  {
    ids[..k] + ids[k + 1..]
  }

  ghost predicate Same(m: Mem, m1: Mem, r: Ref) {
    r in m && r in m1 && m1[r] == m[r]
  }

  // A list whose entries did not change is as it was.
  lemma {:induction false} SameList(m: Mem, m1: Mem, p: Place, ids: seq<int>)
    requires Spelled(m, p, ids) && Same(m, m1, Root(p))
    requires forall k :: 0 <= k < |ids| ==> Same(m, m1, T(ids[k]))
    ensures Spelled(m1, p, ids)
  {
    forall k | 0 <= k <= |ids| ensures Joined(m1, Around(p, ids, k), Around(p, ids, k + 1)) {
      assert Joined(m, Around(p, ids, k), Around(p, ids, k + 1));
    }
  }

  lemma {:induction false} PushSpells(m: Mem, p: Place, ids: seq<int>, x: int)
    requires Spelled(m, p, ids) && Different(ids) && x !in ids && T(x) in m
    ensures Root(p) in m && m[Root(p)].prev == Some(Around(p, ids, |ids|)) && Around(p, ids, |ids|) in m
    ensures Spelled(PushedBack(m, Root(p), T(x)), p, ids + [x])
  {
    var n := |ids|;
    assert Joined(m, Around(p, ids, n), Around(p, ids, n + 1));
    var r, m1 := ids + [x], PushedBack(m, Root(p), T(x));
    assert Joined(m1, Around(p, r, n), Around(p, r, n + 1)) && Joined(m1, Around(p, r, n + 1), Around(p, r, n + 2));
    forall k | 0 <= k < n ensures Joined(m1, Around(p, r, k), Around(p, r, k + 1)) {
      assert Joined(m, Around(p, ids, k), Around(p, ids, k + 1));
    }
  }

  lemma {:induction false} UnlinkJoins(m: Mem, p: Place, ids: seq<int>, k: nat, i: nat)
    requires Spelled(m, p, ids) && Different(ids) && k < |ids| && i < |ids|
    ensures Between(m, T(ids[k]))
    ensures var r, m1 := Unindexed(ids, k), Unlinked(m, T(ids[k])); Joined(m1, Around(p, r, i), Around(p, r, i + 1))
  {
    assert Joined(m, Around(p, ids, k), Around(p, ids, k + 1));
    assert Joined(m, Around(p, ids, k + 1), Around(p, ids, k + 2));
    if i < k { assert Joined(m, Around(p, ids, i), Around(p, ids, i + 1)); }
    else if i > k { assert Joined(m, Around(p, ids, i + 1), Around(p, ids, i + 2)); }
  }

  lemma {:induction false} UnlinkSpells(m: Mem, p: Place, ids: seq<int>, k: nat)
    requires Spelled(m, p, ids) && Different(ids) && k < |ids|
    ensures Between(m, T(ids[k]))
    ensures m[T(ids[k])] == Cell(Some(Around(p, ids, k)), Some(Around(p, ids, k + 2)))
    ensures Spelled(Unlinked(m, T(ids[k])), p, Unindexed(ids, k))
  {
    assert Joined(m, Around(p, ids, k), Around(p, ids, k + 1));
    assert Joined(m, Around(p, ids, k + 1), Around(p, ids, k + 2));
    forall i | 0 <= i < |ids|
      ensures Joined(Unlinked(m, T(ids[k])), Around(p, Unindexed(ids, k), i), Around(p, Unindexed(ids, k), i + 1))
    {
      UnlinkJoins(m, p, ids, k, i);
    }
  }

  // ---- all the lists of a clock ------------------------------------------------------------

  ghost function IdsOf(s: seq<Timer>): (ids: seq<int>)
    ensures |ids| == |s| && forall k :: 0 <= k < |s| ==> ids[k] == s[k].id
  {
    seq(|s|, k requires 0 <= k < |s| => s[k].id)
  }

  ghost predicate AllSpelled(m: Mem, tw: map<Place, seq<Timer>>) {
    forall p {:trigger Spelled(m, p, IdsOf(tw[p]))} :: p in tw ==> Spelled(m, p, IdsOf(tw[p]))
  }

  // s holds no timer of this id.
  ghost predicate Misses(s: seq<Timer>, id: int) {
    forall i :: 0 <= i < |s| ==> s[i].id != id
  }

  ghost predicate Disjoint(s: seq<Timer>, t: seq<Timer>) {
    forall i :: 0 <= i < |s| ==> Misses(t, s[i].id)
  }

  // Timers are listed under different ids, in one list each.
  ghost predicate Apart(tw: map<Place, seq<Timer>>) {
    && (forall p {:trigger Different(IdsOf(tw[p]))} :: p in tw ==> Different(IdsOf(tw[p])))
    && (forall p, q {:trigger Disjoint(tw[p], tw[q])} :: p in tw && q in tw && p != q ==> Disjoint(tw[p], tw[q]))
  }

  // No list holds a timer of this id.
  ghost predicate Unlisted(tw: map<Place, seq<Timer>>, id: int) {
    forall p {:trigger Misses(tw[p], id)} :: p in tw ==> Misses(tw[p], id)
  }

  lemma {:induction false} ListedApart(tw: map<Place, seq<Timer>>, locs: map<int, Timer>, hand: set<int>)
    requires Listed(tw, locs, hand)
    ensures Apart(tw) && forall id :: id !in locs || id in hand ==> Unlisted(tw, id)
  {
    assert forall p, i :: p in tw && 0 <= i < |tw[p]| ==> In(tw, p, tw[p][i]);
  }

  lemma {:induction false} PushAll(m: Mem, tw: map<Place, seq<Timer>>, p: Place, t: Timer)
    requires AllSpelled(m, tw) && Apart(tw) && p in tw && T(t.id) in m && Unlisted(tw, t.id)
    ensures Root(p) in m && m[Root(p)].prev.Some? && m[Root(p)].prev.value in m
    ensures AllSpelled(PushedBack(m, Root(p), T(t.id)), tw[p := tw[p] + [t]])
  {
    var ids := IdsOf(tw[p]);
    assert Spelled(m, p, ids) && Different(ids) && Misses(tw[p], t.id);
    PushSpells(m, p, ids, t.id);
    var m1, tw1 := PushedBack(m, Root(p), T(t.id)), tw[p := tw[p] + [t]];
    assert IdsOf(tw1[p]) == ids + [t.id];
    forall q | q in tw1 && q != p ensures Spelled(m1, q, IdsOf(tw1[q])) {
      assert Spelled(m, q, IdsOf(tw[q])) && Misses(tw[q], t.id) && Disjoint(tw[p], tw[q]);
      InList(m, q, IdsOf(tw[q]));
      SameList(m, m1, q, IdsOf(tw[q]));
    }
  }

  // The entries of a list exist.
  lemma {:induction false} InList(m: Mem, p: Place, ids: seq<int>)
    requires Spelled(m, p, ids)
    ensures Root(p) in m && forall k :: 0 <= k < |ids| ==> T(ids[k]) in m
  {
    forall k | 0 <= k <= |ids| ensures Around(p, ids, k) in m {
      assert Joined(m, Around(p, ids, k), Around(p, ids, k + 1));
    }
    forall k | 0 <= k < |ids| ensures T(ids[k]) in m { assert Around(p, ids, k + 1) in m; }
    assert Around(p, ids, 0) in m;
  }

  lemma {:induction false} UnlinkAll(m: Mem, tw: map<Place, seq<Timer>>, p: Place, k: nat)
    requires AllSpelled(m, tw) && Apart(tw) && p in tw && k < |tw[p]|
    ensures Between(m, T(tw[p][k].id))
    ensures AllSpelled(Unlinked(m, T(tw[p][k].id)), tw[p := tw[p][..k] + tw[p][k + 1..]])
  {
    var ids := IdsOf(tw[p]);
    assert Spelled(m, p, ids) && Different(ids);
    UnlinkSpells(m, p, ids, k);
    var m1, tw1 := Unlinked(m, T(ids[k])), tw[p := tw[p][..k] + tw[p][k + 1..]];
    assert IdsOf(tw1[p]) == Unindexed(ids, k);
    forall q | q in tw1 && q != p ensures Spelled(m1, q, IdsOf(tw1[q])) {
      assert Spelled(m, q, IdsOf(tw[q])) && Disjoint(tw[p], tw[q]);
      assert Misses(tw[q], tw[p][k].id);
      InList(m, q, IdsOf(tw[q]));
      SameList(m, m1, q, IdsOf(tw[q]));
    }
  }

  lemma {:induction false} NewAll(m: Mem, tw: map<Place, seq<Timer>>, r: Ref, c: Cell, p: Place)
    requires AllSpelled(m, tw) && r !in m
    ensures AllSpelled(m[r := c], tw)
    ensures r == Root(p) && c == Cell(Some(r), Some(r)) ==> AllSpelled(m[r := c], tw[p := []])
  {
    forall q | q in tw ensures Spelled(m[r := c], q, IdsOf(tw[q])) {
      assert Spelled(m, q, IdsOf(tw[q]));
      InList(m, q, IdsOf(tw[q]));
      SameList(m, m[r := c], q, IdsOf(tw[q]));
    }
  }

  // Deleting an id from every list is deleting it from the one place it is at.
  lemma {:induction false} DelIs(w: Wheel, p: Place, k: nat)
    requires Apart(w.tw) && p in w.tw && k < |w.tw[p]|
    ensures Del(w, w.tw[p][k].id).tw == w.tw[p := w.tw[p][..k] + w.tw[p][k + 1..]]
  {
    var id := w.tw[p][k].id;
    assert Different(IdsOf(w.tw[p]));
    WithoutAt(w.tw[p], k);
    forall q | q in w.tw && q != p ensures Without(w.tw[q], id) == w.tw[q] {
      assert Disjoint(w.tw[p], w.tw[q]);
      assert Misses(w.tw[q], id);
      WithoutNone(w.tw[q], id);
    }
  }

  lemma {:induction false} WithoutNone(s: seq<Timer>, id: int)
    requires forall k :: 0 <= k < |s| ==> s[k].id != id
    ensures Without(s, id) == s
    decreases |s|
  {
    if s != [] { WithoutNone(s[1..], id); }
  }

  lemma {:induction false} WithoutAt(s: seq<Timer>, k: nat)
    requires k < |s| && forall i :: 0 <= i < k ==> s[i].id != s[k].id
    ensures Without(s, s[k].id) == s[..k] + s[k + 1..]
    decreases |s|
  {
    if k > 0 {
      WithoutAt(s[1..], k - 1);
      assert s[1..][..k - 1] == s[1..k] && s[1..][k..] == s[k + 1..];
      assert s[..k] == [s[0]] + s[1..k];
    }
  }
}

// The timers and sentinels themselves.
module TimerLists {
  import opened Options
  import opened ClockSpec
  import opened TimerRings

  class TimerNode {
    ghost const ref: Ref
    const id: int
    var when: int
    const data: int
    const sink: Sink
    var prev: TimerNode?
    var next: TimerNode?

    constructor Timer(id: int, when: int, data: int, sink: Sink)
      ensures Value() == ClockSpec.Timer(id, when, data, sink) && ref == T(id) && prev == null && next == null
    {
      this.id, this.when, this.data, this.sink, ref := id, when, data, sink, T(id);
      prev, next := null, null;
    }

    constructor Sentinel(ghost place: Place)
      ensures ref == Root(place) && prev == this && next == this
    {
      id, when, data, sink, ref := 0, 0, 0, Receiver(0), Root(place);
      prev, next := this, this;
    }

    function Value(): ClockSpec.Timer
      reads this`when
    {
      ClockSpec.Timer(id, when, data, sink)
    }
  }

  // The links of a set of timers and sentinels.
  class Links {
    ghost var objs: map<Ref, TimerNode>
    ghost var nodes: set<TimerNode>
    ghost var mem: Mem
    ghost var vals: map<int, ClockSpec.Timer>

    constructor ()
      ensures Valid() && objs == map[] && mem == map[] && nodes == {} && vals == map[]
    {
      objs, mem, nodes, vals := map[], map[], {}, map[];
    }

    ghost predicate Points(o: TimerNode?, r: Option<Ref>)
      reads this
    {
      if r.None? then o == null else r.value in objs && o == objs[r.value]
    }

    ghost predicate Mirrored(r: Ref)
      requires r in objs && r in mem && objs[r] in nodes
      reads this, nodes
    {
      objs[r].ref == r && Points(objs[r].prev, mem[r].prev) && Points(objs[r].next, mem[r].next)
    }

    ghost predicate Shows(id: int)
      requires id in vals && T(id) in objs && objs[T(id)] in nodes
      reads this, nodes
    {
      objs[T(id)].Value() == vals[id] && vals[id].id == id
    }

    ghost predicate Valid()
      reads this, nodes
    {
      && objs.Keys == mem.Keys && (forall r :: r in objs ==> objs[r] in nodes)
      && (forall r {:trigger Mirrored(r)} :: r in objs ==> Mirrored(r))
      && (forall id :: id in vals <==> T(id) in objs) && (forall id :: id in vals ==> Shows(id))
    }

    ghost predicate Has(t: TimerNode)
      reads this
    {
      t.ref in objs && objs[t.ref] == t
    }

    method SetNext(a: TimerNode, b: TimerNode)
      requires Valid() && Has(a) && Has(b)
      modifies this`mem, a`next
      ensures Valid() && mem == WithNext(old(mem), a.ref, b.ref)
    {
      a.next := b;
      mem := WithNext(mem, a.ref, b.ref);
      forall r | r in objs ensures Mirrored(r) {
        assert old(Mirrored(r));
        assert r != a.ref ==> objs[r] != a;
      }
    }

    method SetPrev(a: TimerNode, b: TimerNode)
      requires Valid() && Has(a) && Has(b)
      modifies this`mem, a`prev
      ensures Valid() && mem == WithPrev(old(mem), a.ref, b.ref)
    {
      a.prev := b;
      mem := WithPrev(mem, a.ref, b.ref);
      forall r | r in objs ensures Mirrored(r) {
        assert old(Mirrored(r));
        assert r != a.ref ==> objs[r] != a;
      }
    }

    method PushBack(root: TimerNode, t: TimerNode)
      requires Valid() && Has(root) && Has(t) && mem[root.ref].prev.Some? && mem[root.ref].prev.value in mem
      modifies this`mem, nodes`next, nodes`prev
      ensures Valid() && mem == PushedBack(old(mem), root.ref, t.ref)
    {
      assert Mirrored(root.ref) && Mirrored(mem[root.ref].prev.value);
      var tail := root.prev;
      SetNext(tail, t);
      SetPrev(t, tail);
      SetNext(t, root);
      SetPrev(root, t);
    }

    method Clear(a: TimerNode)
      requires Valid() && Has(a)
      modifies this`mem, a`next, a`prev
      ensures Valid() && mem == old(mem)[a.ref := Cell(None, None)]
    {
      a.prev := null;
      a.next := null;
      mem := mem[a.ref := Cell(None, None)];
      forall r | r in objs ensures Mirrored(r) {
        assert old(Mirrored(r));
        assert r != a.ref ==> objs[r] != a;
      }
    }

    // Unlink a timer, if it is in a list.
    method RemoveFromList(t: TimerNode) returns (r: bool)
      requires Valid() && Has(t)
      modifies this`mem, nodes`next, nodes`prev
      ensures Valid() && (r <==> old(mem)[t.ref].prev.Some? && old(mem)[t.ref].next.Some?)
      ensures r ==> Between(old(mem), t.ref) && mem == Unlinked(old(mem), t.ref)
      ensures !r ==> mem == old(mem)
    {
      assert Mirrored(t.ref);
      if t.prev == null || t.next == null {
        return false;
      }
      assert Mirrored(mem[t.ref].prev.value) && Mirrored(mem[t.ref].next.value);
      var prev, next := t.prev, t.next;
      SetNext(prev, next);
      SetPrev(next, prev);
      Clear(t);
      return true;
    }

    // Remove a timer of the list of this sentinel, but not the sentinel.
    method Remove(root: TimerNode, t: TimerNode) returns (r: bool)
      requires Valid() && Has(t) && Has(root) && Between(mem, t.ref)
      modifies this`mem, nodes`next, nodes`prev
      ensures Valid() && (r <==> t != root)
      ensures mem == if r then Unlinked(old(mem), t.ref) else old(mem)
    {
      if t == root {
        return false;
      }
      r := RemoveFromList(t);
    }

    method SetWhen(t: TimerNode, when: int)
      requires Valid() && Has(t) && t.ref == T(t.id)
      modifies this`vals, t`when
      ensures Valid() && vals == old(vals)[t.id := old(vals)[t.id].(when := when)]
    {
      t.when := when;
      vals := vals[t.id := vals[t.id].(when := when)];
      forall r | r in objs ensures Mirrored(r) { assert old(Mirrored(r)); }
      forall id | id in vals && id != t.id ensures Shows(id) { assert Mirrored(T(id)) && old(Shows(id)); }
    }

    method IsEmpty(root: TimerNode) returns (r: bool)
      requires Valid() && Has(root)
      ensures r <==> mem[root.ref].next == Some(root.ref)
    {
      assert Mirrored(root.ref);
      r := root.next == root;
      if r && mem[root.ref].next.Some? { assert Mirrored(mem[root.ref].next.value); }
    }

    // A new list, which is its sentinel.
    method NewList(ghost p: Place) returns (root: TimerNode)
      requires Valid() && Root(p) !in objs
      modifies this
      ensures Valid() && root.ref == Root(p) && objs == old(objs)[Root(p) := root] && fresh(root)
      ensures nodes == old(nodes) + {root}
      ensures mem == old(mem)[Root(p) := Cell(Some(Root(p)), Some(Root(p)))] && vals == old(vals)
    {
      root := new TimerNode.Sentinel(p);
      ghost var r0 := Root(p);
      objs, nodes, mem := objs[r0 := root], nodes + {root}, mem[r0 := Cell(Some(r0), Some(r0))];
      forall r | r in objs ensures Mirrored(r) { assert r != r0 ==> old(Mirrored(r)); }
    }

    method NewTimer(id: int, when: int, data: int, sink: Sink) returns (t: TimerNode)
      requires Valid() && T(id) !in objs
      modifies this
      ensures Valid() && t.ref == T(id) && objs == old(objs)[T(id) := t] && fresh(t) && nodes == old(nodes) + {t}
      ensures t.id == id && mem == old(mem)[T(id) := Cell(None, None)]
      ensures vals == old(vals)[id := ClockSpec.Timer(id, when, data, sink)]
    {
      t := new TimerNode.Timer(id, when, data, sink);
      ghost var r0 := T(id);
      objs, nodes, mem := objs[r0 := t], nodes + {t}, mem[r0 := Cell(None, None)];
      vals := vals[id := ClockSpec.Timer(id, when, data, sink)];
      forall r | r in objs ensures Mirrored(r) { assert r != r0 ==> old(Mirrored(r)); }
    }
  }
}
