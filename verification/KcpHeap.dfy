/** The receive heap: segments ordered by the signed distance of their numbers, with a
    set of marks for duplicate detection.  Sifting follows container/heap.
 */
module KcpHeap {
  import opened Words
  import opened KcpSpec

  // Position of a segment relative to the next expected number.
  function Key(seg: Segment, base: u32): int { TimeDiff(seg.sn, base) }

  predicate Less(a: Segment, b: Segment) { TimeDiff(b.sn, a.sn) > 0 }

  // Within half the word space from base, Less is the order of the keys.
  lemma {:induction false} LessIsKeyOrder(a: Segment, b: Segment, base: u32)
    requires Key(a, base) >= 0 && Key(b, base) >= 0
    ensures Less(a, b) <==> Key(a, base) < Key(b, base)
  {
  }

  function Parent(i: nat): (p: nat)
    ensures p <= i && (i > 0 ==> p < i)
  {
    if i == 0 then 0 else (i - 1) / 2
  }

  function Swapped(s: seq<Segment>, i: nat, j: nat): (r: seq<Segment>)
    requires i < |s| && j < |s|
    ensures |r| == |s|
  {
    s[i := s[j]][j := s[i]]
  }

  // up and down of container/heap
  function SiftUp(s: seq<Segment>, j: nat): (r: seq<Segment>)
    requires j < |s|
    ensures |r| == |s|
    decreases j
  {
    if Parent(j) == j || !Less(s[j], s[Parent(j)]) then s else SiftUp(Swapped(s, Parent(j), j), Parent(j))
  }

  function EarlierChild(s: seq<Segment>, n: nat, i: nat): nat
    requires n <= |s| && 2 * i + 1 < n
  {
    if 2 * i + 2 < n && Less(s[2 * i + 2], s[2 * i + 1]) then 2 * i + 2 else 2 * i + 1
  }

  function SiftDown(s: seq<Segment>, n: nat, i: nat): (r: seq<Segment>)
    requires n <= |s|
    ensures |r| == |s|
    decreases n - i
  {
    if 2 * i + 1 >= n then s
    else
      var j := EarlierChild(s, n, i);
      if !Less(s[j], s[i]) then s else SiftDown(Swapped(s, i, j), n, j)
  }

  // ---- contents ---------------------------------------------------------------

  ghost predicate HoldsAt(s: seq<Segment>, store: map<u32, Segment>, pos: map<u32, int>) {
    && (forall sn :: sn in pos <==> sn in store)
    && (forall i :: 0 <= i < |s| ==> s[i].sn in store && store[s[i].sn] == s[i] && pos[s[i].sn] == i)
    && (forall sn :: sn in store ==> 0 <= pos[sn] < |s| && s[pos[sn]].sn == sn)
  }

  // s holds exactly the entries of store, each once.
  ghost predicate Holds(s: seq<Segment>, store: map<u32, Segment>) {
    exists pos :: HoldsAt(s, store, pos)
  }

  function MovedTo(pos: map<u32, int>, a: u32, j: nat, b: u32, i: nat): map<u32, int> {
    pos[b := i][a := j]
  }

  lemma {:induction false} SwapForward(s: seq<Segment>, store: map<u32, Segment>, pos: map<u32, int>, i: nat, j: nat,
                                       k: nat)
    requires HoldsAt(s, store, pos) && i < |s| && j < |s| && k < |s|
    ensures var t, pos1 := Swapped(s, i, j), MovedTo(pos, s[i].sn, j, s[j].sn, i);
            t[k].sn in store && store[t[k].sn] == t[k] && t[k].sn in pos1 && pos1[t[k].sn] == k
  {
    assert Swapped(s, i, j)[k] == if k == j then s[i] else if k == i then s[j] else s[k];
    assert pos[s[k].sn] == k && pos[s[i].sn] == i && pos[s[j].sn] == j;
  }

  lemma {:induction false} SwapBackward(s: seq<Segment>, store: map<u32, Segment>, pos: map<u32, int>, i: nat, j: nat,
                                        sn: u32)
    requires HoldsAt(s, store, pos) && i < |s| && j < |s| && sn in store
    ensures var t, pos1 := Swapped(s, i, j), MovedTo(pos, s[i].sn, j, s[j].sn, i);
            0 <= pos1[sn] < |t| && t[pos1[sn]].sn == sn
  {
    assert s[pos[sn]].sn == sn && pos[s[i].sn] == i && pos[s[j].sn] == j;
  }

  lemma {:induction false} HoldsSwapped(s: seq<Segment>, store: map<u32, Segment>, i: nat, j: nat)
    requires Holds(s, store) && i < |s| && j < |s|
    ensures Holds(Swapped(s, i, j), store)
  {
    var pos :| HoldsAt(s, store, pos);
    var t, pos1 := Swapped(s, i, j), MovedTo(pos, s[i].sn, j, s[j].sn, i);
    assert HoldsAt(t, store, pos1) by {
      forall k | 0 <= k < |t| ensures t[k].sn in store && store[t[k].sn] == t[k] && pos1[t[k].sn] == k {
        SwapForward(s, store, pos, i, j, k);
      }
      forall sn | sn in store ensures 0 <= pos1[sn] < |t| && t[pos1[sn]].sn == sn {
        SwapBackward(s, store, pos, i, j, sn);
      }
    }
  }

  lemma {:induction false} HoldsSiftUp(s: seq<Segment>, store: map<u32, Segment>, j: nat)
    requires Holds(s, store) && j < |s|
    ensures Holds(SiftUp(s, j), store)
    decreases j
  {
    if Parent(j) != j && Less(s[j], s[Parent(j)]) {
      HoldsSwapped(s, store, Parent(j), j);
      HoldsSiftUp(Swapped(s, Parent(j), j), store, Parent(j));
    }
  }

  lemma {:induction false} HoldsSiftDown(s: seq<Segment>, store: map<u32, Segment>, n: nat, i: nat)
    requires Holds(s, store) && n <= |s|
    ensures Holds(SiftDown(s, n, i), store)
    decreases n - i
  {
    if 2 * i + 1 < n {
      var j := EarlierChild(s, n, i);
      if Less(s[j], s[i]) {
        HoldsSwapped(s, store, i, j);
        HoldsSiftDown(Swapped(s, i, j), store, n, j);
      }
    }
  }

  lemma {:induction false} SiftDownLast(s: seq<Segment>, n: nat, i: nat)
    requires n < |s|
    ensures SiftDown(s, n, i)[n] == s[n]
    decreases n - i
  {
    if 2 * i + 1 < n {
      var j := EarlierChild(s, n, i);
      if Less(s[j], s[i]) {
        SiftDownLast(Swapped(s, i, j), n, j);
      }
    }
  }

  lemma {:induction false} HoldsAppend(s: seq<Segment>, store: map<u32, Segment>, x: Segment)
    requires Holds(s, store) && x.sn !in store
    ensures Holds(s + [x], store[x.sn := x])
  {
    var pos :| HoldsAt(s, store, pos);
    assert HoldsAt(s + [x], store[x.sn := x], pos[x.sn := |s|]);
  }

  lemma {:induction false} HoldsDropLast(s: seq<Segment>, store: map<u32, Segment>)
    requires Holds(s, store) && s != []
    ensures var x := s[|s| - 1];
            x.sn in store && store[x.sn] == x && Holds(s[..|s| - 1], store - {x.sn})
  {
    var pos :| HoldsAt(s, store, pos);
    var x := s[|s| - 1];
    assert HoldsAt(s[..|s| - 1], store - {x.sn}, pos - {x.sn});
  }

  // ---- order ------------------------------------------------------------------

  ghost predicate InReach(store: map<u32, Segment>, base: u32) {
    forall sn :: sn in store ==> TimeDiff(sn, base) >= 0
  }

  ghost predicate Reached(s: seq<Segment>, base: u32) {
    forall i :: 0 <= i < |s| ==> Key(s[i], base) >= 0
  }

  ghost predicate Ordered(s: seq<Segment>, base: u32) {
    forall i :: 0 < i < |s| ==> Key(s[Parent(i)], base) <= Key(s[i], base)
  }

  // A heap but for entry j, which may be too early for its place.
  ghost predicate OrderedBut(s: seq<Segment>, base: u32, j: nat)
    requires j < |s|
  {
    && (forall i :: 0 < i < |s| && i != j ==> Key(s[Parent(i)], base) <= Key(s[i], base))
    && (forall i :: 0 < i < |s| && Parent(i) == j ==> Key(s[Parent(j)], base) <= Key(s[i], base))
  }

  // The first n are a heap but for entry i, which may be too late for its place.
  ghost predicate OrderedAbove(s: seq<Segment>, n: nat, base: u32, i: nat)
    requires n <= |s| && i <= n
  {
    && (forall k :: 0 < k < n && Parent(k) != i ==> Key(s[Parent(k)], base) <= Key(s[k], base))
    && (forall k :: 0 < k < n && Parent(k) == i && 0 < i ==> Key(s[Parent(i)], base) <= Key(s[k], base))
  }

  lemma {:induction false} RootIsFirst(s: seq<Segment>, base: u32, i: nat)
    requires Ordered(s, base) && i < |s|
    ensures Key(s[0], base) <= Key(s[i], base)
  {
    if i > 0 { RootIsFirst(s, base, Parent(i)); }
  }

  lemma {:induction false} SwapUp(s: seq<Segment>, base: u32, j: nat)
    requires 0 < j < |s| && OrderedBut(s, base, j) && Key(s[j], base) < Key(s[Parent(j)], base)
    ensures OrderedBut(Swapped(s, Parent(j), j), base, Parent(j))
  {
    var t, p := Swapped(s, Parent(j), j), Parent(j);
    forall i | 0 < i < |s| && i != p ensures Key(t[Parent(i)], base) <= Key(t[i], base) {
      if i != j && Parent(i) != j && Parent(i) != p {
        assert t[i] == s[i] && t[Parent(i)] == s[Parent(i)];
      }
    }
    forall i | 0 < i < |s| && Parent(i) == p ensures Key(t[Parent(p)], base) <= Key(t[i], base) {
      if p > 0 { assert Key(s[Parent(p)], base) <= Key(s[p], base); }
    }
  }

  lemma {:induction false} OrderedSiftUp(s: seq<Segment>, base: u32, j: nat)
    requires j < |s| && Reached(s, base) && OrderedBut(s, base, j)
    ensures Ordered(SiftUp(s, j), base)
    decreases j
  {
    LessIsKeyOrder(s[j], s[Parent(j)], base);
    if Parent(j) != j && Less(s[j], s[Parent(j)]) {
      SwapUp(s, base, j);
      OrderedSiftUp(Swapped(s, Parent(j), j), base, Parent(j));
    }
  }

  lemma {:induction false} EarlierChildFirst(s: seq<Segment>, n: nat, i: nat, base: u32)
    requires n <= |s| && Reached(s, base) && 2 * i + 1 < n
    ensures var j := EarlierChild(s, n, i);
            && (Less(s[j], s[i]) <==> Key(s[j], base) < Key(s[i], base))
            && Parent(j) == i
            && forall k :: 0 < k < n && Parent(k) == i ==> Key(s[j], base) <= Key(s[k], base)
  {
    var j := EarlierChild(s, n, i);
    LessIsKeyOrder(s[j], s[i], base);
    if 2 * i + 2 < n { LessIsKeyOrder(s[2 * i + 2], s[2 * i + 1], base); }
    assert forall k :: 0 < k < n && Parent(k) == i ==> k == 2 * i + 1 || k == 2 * i + 2;
  }

  lemma {:induction false} SwapDown(s: seq<Segment>, n: nat, base: u32, i: nat, j: nat)
    requires n <= |s| && i < n && OrderedAbove(s, n, base, i)
    requires 0 < j < n && Parent(j) == i && Key(s[j], base) < Key(s[i], base)
    requires forall k :: 0 < k < n && Parent(k) == i ==> Key(s[j], base) <= Key(s[k], base)
    ensures OrderedAbove(Swapped(s, i, j), n, base, j)
  {
    var t := Swapped(s, i, j);
    forall k | 0 < k < n && Parent(k) != j ensures Key(t[Parent(k)], base) <= Key(t[k], base) {
      if k != i && k != j && Parent(k) != i {
        assert t[k] == s[k] && t[Parent(k)] == s[Parent(k)];
      }
    }
    forall k | 0 < k < n && Parent(k) == j ensures Key(t[Parent(j)], base) <= Key(t[k], base) {
      assert t[k] == s[k] && Key(s[j], base) <= Key(s[k], base);
    }
  }

  // The first n are a heap.
  ghost predicate OrderedFront(s: seq<Segment>, n: nat, base: u32)
    requires n <= |s|
  {
    forall k :: 0 < k < n ==> Key(s[Parent(k)], base) <= Key(s[k], base)
  }

  // Nothing is too late for its place: no children, or the earlier child is no earlier.
  lemma {:induction false} OrderedStop(s: seq<Segment>, n: nat, base: u32, i: nat)
    requires n <= |s| && i <= n && Reached(s, base) && OrderedAbove(s, n, base, i)
    requires 2 * i + 1 < n ==> !Less(s[EarlierChild(s, n, i)], s[i])
    ensures OrderedFront(s, n, base)
  {
    if 2 * i + 1 < n {
      EarlierChildFirst(s, n, i, base);
    }
    forall k | 0 < k < n ensures Key(s[Parent(k)], base) <= Key(s[k], base) {
      if Parent(k) == i { assert k == 2 * i + 1 || k == 2 * i + 2; }
    }
  }

  lemma {:induction false} OrderedSiftDown(s: seq<Segment>, n: nat, base: u32, i: nat)
    requires n <= |s| && i <= n && Reached(s, base) && OrderedAbove(s, n, base, i)
    ensures OrderedFront(SiftDown(s, n, i), n, base)
    decreases n - i
  {
    if 2 * i + 1 < n && Less(s[EarlierChild(s, n, i)], s[i]) {
      var j := EarlierChild(s, n, i);
      EarlierChildFirst(s, n, i, base);
      SwapDown(s, n, base, i, j);
      OrderedSiftDown(Swapped(s, i, j), n, base, j);
    } else {
      OrderedStop(s, n, base, i);
    }
  }

  // ---- the heap ---------------------------------------------------------------

  ghost predicate HeapOf(s: seq<Segment>, store: map<u32, Segment>, base: u32) {
    Holds(s, store) && InReach(store, base) && Ordered(s, base)
  }

  lemma {:induction false} HoldsReached(s: seq<Segment>, store: map<u32, Segment>, base: u32)
    requires Holds(s, store) && InReach(store, base)
    ensures Reached(s, base)
  {
    var pos :| HoldsAt(s, store, pos);
  }

  lemma {:induction false} PushHeap(s: seq<Segment>, store: map<u32, Segment>, base: u32, x: Segment)
    requires HeapOf(s, store, base) && x.sn !in store && Key(x, base) >= 0
    ensures HeapOf(SiftUp(s + [x], |s|), store[x.sn := x], base)
  {
    HoldsAppend(s, store, x);
    HoldsReached(s + [x], store[x.sn := x], base);
    HoldsSiftUp(s + [x], store[x.sn := x], |s|);
    OrderedSiftUp(s + [x], base, |s|);
  }

  lemma {:induction false} FirstOfStore(s: seq<Segment>, store: map<u32, Segment>, base: u32)
    requires HeapOf(s, store, base) && s != []
    ensures s[0].sn in store && forall sn :: sn in store ==> Key(s[0], base) <= TimeDiff(sn, base)
  {
    var pos :| HoldsAt(s, store, pos);
    forall sn | sn in store ensures Key(s[0], base) <= TimeDiff(sn, base) {
      var i: int := pos[sn];
      RootIsFirst(s, base, i);
    }
  }

  lemma {:induction false} SwapOutRoot(s: seq<Segment>, base: u32)
    requires Ordered(s, base) && s != []
    ensures OrderedAbove(Swapped(s, 0, |s| - 1), |s| - 1, base, 0)
  {
    var n := |s| - 1;
    var u := Swapped(s, 0, n);
    forall k | 0 < k < n && Parent(k) != 0 ensures Key(u[Parent(k)], base) <= Key(u[k], base) {
      assert u[k] == s[k] && u[Parent(k)] == s[Parent(k)];
    }
  }

  lemma {:induction false} PopHolds(s: seq<Segment>, store: map<u32, Segment>)
    requires Holds(s, store) && s != []
    ensures var n := |s| - 1;
            var t := SiftDown(Swapped(s, 0, n), n, 0);
            && t[n] == s[0] && s[0].sn in store && store[s[0].sn] == s[0]
            && Holds(t[..n], store - {s[0].sn})
  {
    var n := |s| - 1;
    HoldsSwapped(s, store, 0, n);
    HoldsSiftDown(Swapped(s, 0, n), store, n, 0);
    SiftDownLast(Swapped(s, 0, n), n, 0);
    HoldsDropLast(SiftDown(Swapped(s, 0, n), n, 0), store);
  }

  lemma {:induction false} PopHeap(s: seq<Segment>, store: map<u32, Segment>, base: u32)
    requires HeapOf(s, store, base) && s != []
    ensures var n := |s| - 1;
            var t := SiftDown(Swapped(s, 0, n), n, 0);
            && t[n] == s[0] && s[0].sn in store && store[s[0].sn] == s[0]
            && HeapOf(t[..n], store - {s[0].sn}, base)
  {
    var n := |s| - 1;
    PopHolds(s, store);
    SwapOutRoot(s, base);
    HoldsSwapped(s, store, 0, n);
    HoldsReached(Swapped(s, 0, n), store, base);
    OrderedSiftDown(Swapped(s, 0, n), n, base, 0);
  }

  // Once the number base itself is gone, the heap is just as good seen from base + 1.
  lemma {:induction false} Rebase(s: seq<Segment>, store: map<u32, Segment>, base: u32)
    requires HeapOf(s, store, base) && base !in store
    ensures HeapOf(s, store, Add32(base, 1))
  {
    var pos :| HoldsAt(s, store, pos);
    forall i | 0 <= i < |s| ensures Key(s[i], Add32(base, 1)) == Key(s[i], base) - 1 {
      assert s[i].sn in store;
    }
  }

  class SegmentHeap {
    var segments: seq<Segment>
    var marks: set<u32>
    ghost var store: map<u32, Segment>

    ghost predicate Valid(base: u32)
      reads this
    {
      HeapOf(segments, store, base) && marks == store.Keys
    }

    constructor ()
      ensures Valid(0) && store == map[]
    {
      segments, marks, store := [], {}, map[];
      new;
      assert HoldsAt([], map[], map[]);
    }

    method Up(j0: nat)
      requires j0 < |segments|
      modifies this`segments
      ensures segments == SiftUp(old(segments), j0)
    {
      var j := j0;
      while true
        invariant 0 <= j < |segments| && SiftUp(segments, j) == SiftUp(old(segments), j0)
        decreases j
      {
        var i := Parent(j);
        if i == j || !Less(segments[j], segments[i]) {
          break;
        }
        segments := Swapped(segments, i, j);
        j := i;
      }
    }

    method Down(n: nat)
      requires n <= |segments|
      modifies this`segments
      ensures segments == SiftDown(old(segments), n, 0)
    {
      var i := 0;
      while true
        invariant 0 <= i && n <= |segments| && SiftDown(segments, n, i) == SiftDown(old(segments), n, 0)
        decreases n - i
      {
        var j1 := 2 * i + 1;
        if j1 >= n {
          break;
        }
        var j := j1;
        if j1 + 1 < n && Less(segments[j1 + 1], segments[j1]) {
          j := j1 + 1;
        }
        if !Less(segments[j], segments[i]) {
          break;
        }
        segments := Swapped(segments, i, j);
        i := j;
      }
    }

    // heap.Push
    method Push(seg: Segment, ghost base: u32)
      requires Valid(base) && seg.sn !in store && Key(seg, base) >= 0
      modifies this
      ensures Valid(base) && store == old(store)[seg.sn := seg]
    {
      PushHeap(segments, store, base, seg);
      var n := |segments|;
      segments := segments + [seg];
      marks := marks + {seg.sn};
      store := store[seg.sn := seg];
      Up(n);
    }

    // heap.Pop: the earliest entry
    method Pop(ghost base: u32) returns (x: Segment)
      requires Valid(base) && |segments| > 0
      modifies this
      ensures x.sn in old(store) && old(store)[x.sn] == x
      ensures forall sn :: sn in old(store) ==> TimeDiff(x.sn, base) <= TimeDiff(sn, base)
      ensures Valid(base) && store == old(store) - {x.sn} && |segments| == old(|segments|) - 1
    {
      FirstOfStore(segments, store, base);
      PopHeap(segments, store, base);
      var n := |segments| - 1;
      segments := Swapped(segments, 0, n);
      Down(n);
      x := segments[n];
      segments := segments[..n];
      marks := marks - {x.sn};
      store := store - {x.sn};
    }
  }
}
