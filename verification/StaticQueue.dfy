// A queue in a fixed pool (ds/staticlist): a free list and a doubly linked queue share one
// array.  Pointers to pool entries are their indices.
module StaticQueues {
  const NULL: int := -1

  datatype Node<T> = Node(data: T, next: int)
  datatype QNode<T> = QNode(value: T, prev: int, next: int)

  ghost predicate Distinct(s: seq<int>) {
    forall i, j :: 0 <= i < j < |s| ==> s[i] != s[j]
  }

  ghost predicate Within(s: seq<int>, n: nat) {
    forall k :: 0 <= k < |s| ==> 0 <= s[k] < n
  }

  function Upto(n: nat): (s: seq<int>)
    ensures |s| == n && forall i :: 0 <= i < n ==> s[i] == i
  {
    seq(n, i => i)
  }

  // The entry k of s, or the last value.
  function Or(s: seq<int>, k: nat, last: int): int {
    if k < |s| then s[k] else last
  }

  class StaticList<T> {
    const datas: array<Node<T>>
    const zero: T
    var free: int
    ghost var frees: seq<int>  // the free entries, in the order they will be given out

    ghost predicate Valid()
      reads this, datas
    {
      && Within(frees, datas.Length) && Distinct(frees) && free == Or(frees, 0, NULL)
      && forall k :: 0 <= k < |frees| ==> datas[frees[k]].next == Or(frees, k + 1, NULL)
    }

    constructor (size: nat, zero: T)
      requires size > 0
      ensures Valid() && fresh(datas) && datas.Length == size && this.zero == zero && frees == Upto(size)
      ensures forall i :: 0 <= i < size ==> datas[i].data == zero
    {
      datas := new Node<T>[size](_ => Node(zero, 0));
      this.zero := zero;
      free, frees := 0, [];
      new;
      Reset();
    }

    // Make every entry free.  The data of the last one is not cleared.
    method Reset()
      requires datas.Length > 0
      modifies this`free, this`frees, datas
      ensures Valid() && frees == Upto(datas.Length)
      ensures forall i :: 0 <= i < datas.Length - 1 ==> datas[i].data == zero
      ensures datas[datas.Length - 1].data == old(datas[datas.Length - 1].data)
    {
      var size := datas.Length;
      for i := 0 to size - 1
        invariant forall k :: 0 <= k < i ==> datas[k] == Node(zero, k + 1)
        invariant datas[size - 1] == old(datas[size - 1])
      {
        datas[i] := Node(zero, i + 1);
      }
      datas[size - 1] := datas[size - 1].(next := NULL);
      free := 0;
      frees := Upto(size);
    }

    method Malloc() returns (p: int)
      requires Valid()
      modifies this`free, this`frees, datas
      ensures Valid() && p == Or(old(frees), 0, NULL)
      ensures frees == if p == NULL then [] else old(frees)[1..]
      ensures p != NULL ==> 0 <= p < datas.Length && datas[p] == old(datas[p]).(next := NULL)
      ensures forall i :: 0 <= i < datas.Length && i != p ==> datas[i] == old(datas[i])
    {
      p := free;
      if p != NULL {
        free := datas[p].next;
        datas[p] := datas[p].(next := NULL);
        frees := frees[1..];
      }
    }

    method Free(p: int)
      requires Valid() && 0 <= p < datas.Length && p !in frees
      modifies this`free, this`frees, datas
      ensures Valid() && frees == [p] + old(frees) && datas[p].data == zero
      ensures forall i :: 0 <= i < datas.Length && i != p ==> datas[i] == old(datas[i])
    {
      datas[p] := Node(zero, free);
      free := p;
      frees := [p] + frees;
    }
  }

  // ---- the links of a queue, on the contents of the pool -----------------------------------

  // The entry after the first k of the ring, back at the sentinel after the last.
  ghost function Around(ring: seq<int>, k: nat): int
    requires ring != []
  {
    if k < |ring| then ring[k] else ring[0]
  }

  ghost predicate Joined<T>(d: seq<Node<QNode<T>>>, ring: seq<int>, k: nat)
    requires k < |ring| && Within(ring, |d|)
  {
    d[Around(ring, k)].data.next == Around(ring, k + 1) && d[Around(ring, k + 1)].data.prev == Around(ring, k)
  }

  // The entry holds its own index and the element.
  ghost predicate Holds<T>(d: seq<Node<QNode<T>>>, ring: seq<int>, elems: seq<T>, k: nat)
    requires 0 < k < |ring| == |elems| + 1 && Within(ring, |d|)
  {
    d[ring[k]].next == ring[k] && d[ring[k]].data.value == elems[k - 1]
  }

  // The links spell the ring, which holds the elements.
  ghost predicate Spells<T>(d: seq<Node<QNode<T>>>, ring: seq<int>, elems: seq<T>) {
    && |ring| == |elems| + 1 && Within(ring, |d|) && Distinct(ring)
    && (forall k :: 0 <= k < |ring| ==> Joined(d, ring, k))
    && (forall k :: 0 < k < |ring| ==> Holds(d, ring, elems, k))
  }

  function WithNext<T>(d: seq<Node<QNode<T>>>, i: int, next: int): seq<Node<QNode<T>>>
    requires 0 <= i < |d|
  {
    d[i := d[i].(data := d[i].data.(next := next))]
  }

  function WithPrev<T>(d: seq<Node<QNode<T>>>, i: int, prev: int): seq<Node<QNode<T>>>
    requires 0 <= i < |d|
  {
    d[i := d[i].(data := d[i].data.(prev := prev))]
  }

  // The entry p linked in before the sentinel.
  function LinkedBack<T>(d: seq<Node<QNode<T>>>, root: int, p: int): seq<Node<QNode<T>>>
    requires 0 <= root < |d| && 0 <= p < |d| && 0 <= d[root].data.prev < |d|
  {
    var tail := d[root].data.prev;
    WithPrev(WithNext(WithPrev(WithNext(d, tail, p), p, tail), p, root), root, p)
  }

  // The entry p with its neighbours linked past it.
  function Unlinked<T>(d: seq<Node<QNode<T>>>, p: int): seq<Node<QNode<T>>>
    requires 0 <= p < |d| && 0 <= d[p].data.prev < |d| && 0 <= d[p].data.next < |d|
  {
    WithPrev(WithNext(d, d[p].data.prev, d[p].data.next), d[p].data.next, d[p].data.prev)
  }

  // Only the entries of the ring matter.
  lemma {:induction false} SpellsElsewhere<T>(d: seq<Node<QNode<T>>>, d1: seq<Node<QNode<T>>>, ring: seq<int>,
                                              elems: seq<T>)
    requires Spells(d, ring, elems) && |d1| == |d| && forall k :: 0 <= k < |ring| ==> d1[ring[k]] == d[ring[k]]
    ensures Spells(d1, ring, elems)
  {
    forall k | 0 <= k < |ring| ensures Joined(d1, ring, k) { assert Joined(d, ring, k); }
    forall k | 0 < k < |ring| ensures Holds(d1, ring, elems, k) { assert Holds(d, ring, elems, k); }
  }

  lemma {:induction false} LinksBack<T>(d: seq<Node<QNode<T>>>, ring: seq<int>, elems: seq<T>, p: int)
    requires Spells(d, ring, elems) && 0 <= p < |d| && p !in ring && d[p].next == p
    ensures d[ring[0]].data.prev == ring[|ring| - 1]
    ensures Spells(LinkedBack(d, ring[0], p), ring + [p], elems + [d[p].data.value])
  {
    var m := |ring|;
    assert Joined(d, ring, m - 1);
    var r, d1 := ring + [p], LinkedBack(d, ring[0], p);
    assert Joined(d1, r, m - 1) && Joined(d1, r, m) && Holds(d1, r, elems + [d[p].data.value], m);
    forall k | 0 <= k < m - 1 ensures Joined(d1, r, k) { assert Joined(d, ring, k); }
    forall k | 0 < k < m ensures Holds(d1, r, elems + [d[p].data.value], k) { assert Holds(d, ring, elems, k); }
  }

  lemma {:induction false} UnlinksJoined<T>(d: seq<Node<QNode<T>>>, ring: seq<int>, k: nat, i: nat)
    requires Within(ring, |d|) && Distinct(ring) && (forall j :: 0 <= j < |ring| ==> Joined(d, ring, j))
    requires 0 < k < |ring| && i < |ring| - 1
    ensures d[ring[k]].data.prev == ring[k - 1] && d[ring[k]].data.next == Around(ring, k + 1)
    ensures Joined(Unlinked(d, ring[k]), ring[..k] + ring[k + 1..], i)
  {
    assert Joined(d, ring, k - 1) && Joined(d, ring, k);
    if i < k - 1 { assert Joined(d, ring, i); } else if i >= k { assert Joined(d, ring, i + 1); }
  }

  lemma {:induction false} Unlinks<T>(d: seq<Node<QNode<T>>>, ring: seq<int>, elems: seq<T>, k: nat)
    requires Spells(d, ring, elems) && 0 < k < |ring|
    ensures var p := ring[k]; d[p].data.prev == ring[k - 1] && d[p].data.next == Around(ring, k + 1)
    ensures Spells(Unlinked(d, ring[k]), ring[..k] + ring[k + 1..], elems[..k - 1] + elems[k..])
  {
    var r, e := ring[..k] + ring[k + 1..], elems[..k - 1] + elems[k..];
    UnlinksJoined(d, ring, k, 0);
    var d1 := Unlinked(d, ring[k]);
    forall i | 0 <= i < |r| ensures Joined(d1, r, i) { UnlinksJoined(d, ring, k, i); }
    forall i | 0 < i < |r| ensures Holds(d1, r, e, i) { assert Holds(d, ring, elems, if i < k then i else i + 1); }
  }

  // ---- who owns which entry ------------------------------------------------------------------

  // Every entry is in the ring (the sentinel or queued) or free, and only one of these.
  ghost predicate Parted(ring: seq<int>, frees: seq<int>, n: nat) {
    && Within(ring, n) && Distinct(ring) && Within(frees, n) && Distinct(frees)
    && (forall i :: 0 <= i < n ==> (i in ring <==> i !in frees))
    && |ring| + |frees| == n
  }

  lemma {:induction false} TakeFree(ring: seq<int>, frees: seq<int>, n: nat)
    requires Parted(ring, frees, n) && frees != []
    ensures frees[0] !in ring && Parted(ring + [frees[0]], frees[1..], n)
  {
    assert frees[0] in frees;
    forall i | 0 <= i < n ensures i in ring + [frees[0]] <==> i !in frees[1..] {
      assert i in frees <==> i == frees[0] || i in frees[1..];
    }
  }

  lemma {:induction false} GiveBack(ring: seq<int>, frees: seq<int>, n: nat, k: nat)
    requires Parted(ring, frees, n) && k < |ring|
    ensures ring[k] !in frees && ring[k] !in ring[..k] + ring[k + 1..]
    ensures Parted(ring[..k] + ring[k + 1..], [ring[k]] + frees, n)
  {
    var r := ring[..k] + ring[k + 1..];
    assert ring[k] in ring;
    forall i | 0 <= i < n ensures i in r <==> i in ring && i != ring[k] {
      if i in ring && i != ring[k] {
        var j :| 0 <= j < |ring| && ring[j] == i;
        assert r[if j < k then j else j - 1] == i;
      }
    }
  }

  lemma {:induction false} AllFree(n: nat)
    ensures Parted([], Upto(n), n)
  {
    forall i | 0 <= i < n ensures i in Upto(n) { assert Upto(n)[i] == i; }
  }

  lemma {:induction false} MovesBack<T>(d: seq<Node<QNode<T>>>, ring: seq<int>, elems: seq<T>, frees: seq<int>, k: nat)
    requires Spells(d, ring, elems) && Parted(ring, frees, |d|) && 0 < k < |ring|
    ensures var p := ring[k];
            0 <= d[p].data.prev < |d| && 0 <= d[p].data.next < |d| && 0 <= Unlinked(d, p)[ring[0]].data.prev < |d|
    ensures var p := ring[k]; var r := ring[..k] + ring[k + 1..] + [p];
            && Spells(LinkedBack(Unlinked(d, p), ring[0], p), r, elems[..k - 1] + elems[k..] + [elems[k - 1]])
            && Parted(r, frees, |d|)
  {
    var p, r := ring[k], ring[..k] + ring[k + 1..];
    GiveBack(ring, frees, |d|, k);
    TakeFree(r, [p] + frees, |d|);
    assert ([p] + frees)[1..] == frees;
    assert Holds(d, ring, elems, k);
    Unlinks(d, ring, elems, k);
    LinksBack(Unlinked(d, p), r, elems[..k - 1] + elems[k..], p);
  }

  class Queue<T> {
    const pool: StaticList<QNode<T>>
    const cap: nat
    var root: int
    var len: int
    ghost var ring: seq<int>  // the sentinel and the queued entries, in order
    ghost var elems: seq<T>

    ghost predicate Valid()
      reads this, pool, pool.datas
    {
      && pool.Valid() && Parted(ring, pool.frees, 1 + cap) && pool.datas.Length == 1 + cap
      && Spells(pool.datas[..], ring, elems) && ring[0] == root && len == |elems|
    }

    constructor (cap: nat, zero: T)
      ensures Valid() && elems == [] && this.cap == cap && fresh(pool) && fresh(pool.datas)
    {
      var none := QNode(zero, NULL, NULL);
      var l := new StaticList<QNode<T>>(1 + cap, none);
      ghost var fs := l.frees;
      var p := l.Malloc();
      AllFree(1 + cap);
      TakeFree([], fs, 1 + cap);
      l.datas[p] := l.datas[p].(data := QNode(l.datas[p].data.value, p, p));
      pool, this.cap, root, len, ring, elems := l, cap, p, 0, [p], [];
      new;
      assert [] + [fs[0]] == [p];
      assert Joined(pool.datas[..], ring, 0);
    }

    method IsEmpty() returns (r: bool)
      requires Valid()
      ensures r <==> elems == []
    {
      assert Joined(pool.datas[..], ring, 0);
      r := pool.datas[root].data.next == root;
    }

    method IsFull() returns (r: bool)
      requires Valid()
      ensures (r <==> |elems| == cap) && (r <==> pool.frees == [])
    {
      r := len == cap;
    }

    method LinkBack(p: int)
      requires 0 <= p < pool.datas.Length && 0 <= root < pool.datas.Length
      requires 0 <= pool.datas[root].data.prev < pool.datas.Length
      modifies pool.datas
      ensures pool.datas[..] == LinkedBack(old(pool.datas[..]), root, p)
    {
      var a := pool.datas;
      var tail := a[root].data.prev;
      a[tail] := a[tail].(data := a[tail].data.(next := p));
      a[p] := a[p].(data := a[p].data.(prev := tail));
      a[p] := a[p].(data := a[p].data.(next := root));
      a[root] := a[root].(data := a[root].data.(prev := p));
    }

    method Unlink(p: int)
      requires 0 <= p < pool.datas.Length
      requires 0 <= pool.datas[p].data.prev < pool.datas.Length && 0 <= pool.datas[p].data.next < pool.datas.Length
      modifies pool.datas
      ensures pool.datas[..] == Unlinked(old(pool.datas[..]), p)
    {
      var a := pool.datas;
      var prev, next := a[p].data.prev, a[p].data.next;
      a[prev] := a[prev].(data := a[prev].data.(next := next));
      a[next] := a[next].(data := a[next].data.(prev := prev));
    }

    // Put data into the entry p, just allocated, and link it in at the back.
    method Enqueue(p: int, data: T)
      requires pool.Valid() && pool.datas.Length == 1 + cap && 0 <= p <= cap && p !in ring && p !in pool.frees
      requires Spells(pool.datas[..], ring, elems) && ring[0] == root && len == |elems|
      modifies this`len, this`ring, this`elems, pool.datas
      ensures pool.Valid() && Spells(pool.datas[..], ring, elems) && len == |elems|
      ensures ring == old(ring) + [p] && elems == old(elems) + [data]
    {
      len := len + 1;
      pool.datas[p] := Node(pool.datas[p].data.(value := data), p);
      SpellsElsewhere(old(pool.datas[..]), pool.datas[..], ring, elems);
      LinksBack(pool.datas[..], ring, elems, p);
      ghost var d := pool.datas[..];
      LinkBack(p);
      assert forall i :: 0 <= i <= cap ==> pool.datas[i].next == d[i].next;
      ring, elems := ring + [p], elems + [data];
    }

    method Push(data: T) returns (p: int)
      requires Valid()
      modifies this, pool, pool.datas
      ensures Valid()
      ensures p == NULL <==> |old(elems)| == cap
      ensures elems == if p == NULL then old(elems) else old(elems) + [data]
      ensures ring == if p == NULL then old(ring) else old(ring) + [p]
    {
      if pool.frees != [] { TakeFree(ring, pool.frees, 1 + cap); }
      p := pool.Malloc();
      if p == NULL {
        assert pool.datas[..] == old(pool.datas[..]);
        return;
      }
      SpellsElsewhere(old(pool.datas[..]), pool.datas[..], ring, elems);
      Enqueue(p, data);
    }

    // Remove the live entry p, the k-th of the ring.
    method Remove(p: int, ghost k: nat)
      requires Valid() && 0 < k < |ring| && ring[k] == p
      modifies this, pool, pool.datas
      ensures Valid() && elems == old(elems)[..k - 1] + old(elems)[k..] && ring == old(ring)[..k] + old(ring)[k + 1..]
      ensures pool.datas[p].data == pool.zero
    {
      assert Holds(pool.datas[..], ring, elems, k);
      var q := pool.datas[p].next;
      Unlinks(pool.datas[..], ring, elems, k);
      GiveBack(ring, pool.frees, 1 + cap, k);
      Unlink(p);
      ring, elems := ring[..k] + ring[k + 1..], elems[..k - 1] + elems[k..];
      ghost var d := pool.datas[..];
      pool.Free(q);
      SpellsElsewhere(d, pool.datas[..], ring, elems);
      len := len - 1;
    }

    method Pop(zero: T) returns (data: T)
      requires Valid()
      modifies this, pool, pool.datas
      ensures Valid()
      ensures data == if old(elems) == [] then zero else old(elems)[0]
      ensures elems == if old(elems) == [] then [] else old(elems)[1..]
    {
      var empty := IsEmpty();
      if empty { return zero; }
      assert Joined(pool.datas[..], ring, 0) && Holds(pool.datas[..], ring, elems, 1);
      var node := pool.datas[root].data.next;
      data := pool.datas[node].data.value;
      Remove(node, 1);
    }

    method Relink(p: int, ghost k: nat)
      requires Valid() && 0 < k < |ring| && ring[k] == p
      modifies this`ring, this`elems, pool.datas
      ensures Valid() && elems == old(elems)[..k - 1] + old(elems)[k..] + [old(elems)[k - 1]]
      ensures ring == old(ring)[..k] + old(ring)[k + 1..] + [p]
    {
      MovesBack(pool.datas[..], ring, elems, pool.frees, k);
      Unlink(p);
      LinkBack(p);
      assert forall i :: 0 <= i <= cap ==> pool.datas[i].next == old(pool.datas[i].next);
      ring, elems := ring[..k] + ring[k + 1..] + [p], elems[..k - 1] + elems[k..] + [elems[k - 1]];
    }

    method MoveToBack(p: int, ghost k: nat)
      requires Valid() && 0 < k < |ring| && ring[k] == p
      modifies this`ring, this`elems, pool.datas
      ensures Valid() && elems == old(elems)[..k - 1] + old(elems)[k..] + [old(elems)[k - 1]]
      ensures ring == old(ring)[..k] + old(ring)[k + 1..] + [p]
    {
      assert Joined(pool.datas[..], ring, |ring| - 1);
      if pool.datas[root].data.prev == p {
        assert k == |ring| - 1;
        assert ring == ring[..k] + ring[k + 1..] + [p];
        assert elems == elems[..k - 1] + elems[k..] + [elems[k - 1]];
        return;
      }
      Relink(p, k);
    }

    // Remove the first element if the callback accepts it.
    method PopIf<S>(st: S, fn: (S, T) -> (S, bool)) returns (st1: S, popped: bool)
      requires Valid() && elems != []
      modifies this, pool, pool.datas
      ensures Valid() && (st1, popped) == fn(st, old(elems)[0])
      ensures elems == if popped then old(elems)[1..] else old(elems)
    {
      assert Joined(pool.datas[..], ring, 0) && Holds(pool.datas[..], ring, elems, 1);
      var node := pool.datas[root].data.next;
      var r := fn(st, pool.datas[node].data.value);
      st1, popped := r.0, r.1;
      if popped { Remove(node, 1); }
    }

    // Remove elements from the front while the callback, which has a state of its own,
    // accepts them.
    method PopRange<S>(st: S, fn: (S, T) -> (S, bool)) returns (n: nat, st1: S)
      requires Valid()
      modifies this, pool, pool.datas
      ensures Valid() && n <= |old(elems)| && elems == old(elems)[n..]
      ensures forall i :: 0 <= i < n ==> fn(StateAfter(old(elems), fn, st, i), old(elems)[i]).1
      ensures n < |old(elems)| ==> !fn(StateAfter(old(elems), fn, st, n), old(elems)[n]).1
      ensures st1 == StateAfter(old(elems), fn, st, if n < |old(elems)| then n + 1 else n)
    {
      n, st1 := 0, st;
      while true
        invariant Valid() && n <= |old(elems)| && elems == old(elems)[n..] && st1 == StateAfter(old(elems), fn, st, n)
        invariant forall i :: 0 <= i < n ==> fn(StateAfter(old(elems), fn, st, i), old(elems)[i]).1
        decreases |elems|
      {
        var empty := IsEmpty();
        if empty { return; }
        var popped;
        st1, popped := PopIf(st1, fn);
        if !popped { return; }
        n := n + 1;
      }
    }
  }

  // The state of a callback after the first i elements.
  function StateAfter<S, T>(s: seq<T>, fn: (S, T) -> (S, bool), st: S, i: nat): S
    requires i <= |s|
  {
    if i == 0 then st else fn(StateAfter(s, fn, st, i - 1), s[i - 1]).0
  }
}
