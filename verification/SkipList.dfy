/** The indexable skip list: linked towers of nodes that refine a sorted sequence, with
    spans that answer rank queries.
 */
module SkipLists {
  import opened SkipListShape
  import Words

  const MAX_LEVEL := 32

  class Node<T> {
    var data: T
    var level: seq<Level<Node?<T>>>

    constructor (data: T, level: seq<Level<Node?<T>>>)
      ensures this.data == data && this.level == level
    {
      this.data, this.level := data, level;
    }
  }

  predicate Chain<T>(cmp: (T, T) -> int, a: T, b: T, c: T) {
    cmp(a, b) < 0 && cmp(b, c) < 0
  }

  // Compare is a strict total order.
  ghost predicate Total<T(!new)>(cmp: (T, T) -> int) {
    && (forall a, b :: cmp(a, b) == 0 <==> a == b)
    && (forall a, b :: cmp(a, b) < 0 <==> cmp(b, a) > 0)
    && (forall a, b, c :: Chain(cmp, a, b, c) ==> cmp(a, c) < 0)
  }

  ghost predicate Sorted<T>(cmp: (T, T) -> int, s: seq<T>) {
    forall i, j :: 0 <= i < j < |s| ==> cmp(s[i], s[j]) < 0
  }

  // How many elements come before data.
  function Before<T>(cmp: (T, T) -> int, s: seq<T>, data: T): (n: nat)
    ensures n <= |s|
  {
    if s != [] && cmp(s[0], data) < 0 then 1 + Before(cmp, s[1..], data) else 0
  }

  lemma {:induction false} BeforeSplits<T(!new)>(cmp: (T, T) -> int, s: seq<T>, data: T, i: nat)
    requires Total(cmp) && Sorted(cmp, s) && i < |s|
    ensures cmp(s[i], data) < 0 <==> i < Before(cmp, s, data)
  {
    if cmp(s[0], data) < 0 {
      if i > 0 {
        assert s[1..][i - 1] == s[i];
        BeforeSplits(cmp, s[1..], data, i - 1);
      }
    } else if i > 0 && cmp(s[i], data) < 0 {
      assert Chain(cmp, s[0], s[i], data);
      assert false;
    }
  }

  // In a sorted sequence data can only be at one place.
  lemma {:induction false} FoundAt<T(!new)>(cmp: (T, T) -> int, s: seq<T>, data: T)
    requires Total(cmp) && Sorted(cmp, s)
    ensures var n := Before(cmp, s, data);
            && (data in s <==> n < |s| && s[n] == data)
            && (n < |s| ==> cmp(s[n], data) >= 0)
  {
    var n := Before(cmp, s, data);
    if data in s {
      var i :| 0 <= i < |s| && s[i] == data;
      BeforeSplits(cmp, s, data, i);
    }
    if n < |s| { BeforeSplits(cmp, s, data, n); }
  }

  lemma {:induction false} InsertSorted<T(!new)>(cmp: (T, T) -> int, s: seq<T>, data: T)
    requires Total(cmp) && Sorted(cmp, s) && data !in s
    ensures Sorted(cmp, Inserted(s, Before(cmp, s, data), data))
  {
    var n := Before(cmp, s, data);
    forall i | 0 <= i < |s| ensures cmp(s[i], data) < 0 <==> i < n {
      BeforeSplits(cmp, s, data, i);
    }
  }

  lemma {:induction false} RemoveSorted<T>(cmp: (T, T) -> int, s: seq<T>, n: nat)
    requires Sorted(cmp, s) && n < |s|
    ensures Sorted(cmp, Removed(s, n))
  {
  }

  class SkipList<T(0, !new, ==)> {
    const cmp: (T, T) -> int
    const header: Node<T>
    var level: nat
    var length: nat
    // header first, then the nodes in order; their towers, effective heights and data
    ghost var nodes: seq<Node<T>>
    ghost var lv: seq<seq<Level<Node?<T>>>>
    ghost var h: seq<nat>
    ghost var elems: seq<T>

    // The ghost fields mirror the objects.
    ghost predicate Mirrors()
      reads this, nodes
    {
      && nodes != [] && nodes[0] == header && |lv| == |h| == |nodes|
      && (forall i, j :: 0 <= i < j < |nodes| ==> nodes[i] != nodes[j])
      && (forall k :: 0 <= k < |nodes| ==> nodes[k].level == lv[k])
      && |elems| == |nodes| - 1
      && (forall k :: 0 <= k < |elems| ==> nodes[k + 1].data == elems[k])
    }

    ghost predicate Heights()
      reads this`level, this`lv, this`h
    {
      && h != [] && |lv| == |h|
      && 1 <= level <= MAX_LEVEL && h[0] == level && |lv[0]| == MAX_LEVEL
      && (forall k :: 0 < k < |h| ==> 1 <= h[k] <= level && |lv[k]| == h[k])
      && (forall i :: level <= i < MAX_LEVEL ==> lv[0][i].next == null)
    }

    ghost predicate Valid()
      reads this, nodes
    {
      && Mirrors() && Heights()
      && Linked<Node?<T>>(nodes, lv, h, null)
      && length == |elems|
      && Total(cmp) && Sorted(cmp, elems)
    }

    constructor (cmp: (T, T) -> int, zero: T)
      requires Total(cmp)
      ensures Valid() && elems == [] && fresh(nodes) && this.cmp == cmp && header.data == zero
    {
      this.cmp := cmp;
      var tower := seq(MAX_LEVEL, _ => Level(null, 0));
      var n := new Node<T>(zero, tower);
      header := n;
      level, length := 1, 0;
      nodes, lv, h, elems := [n], [tower], [1], [];
      new;
      assert NextAt([1], 0, 0) == 1;
    }

    // ---- searching ------------------------------------------------------------

    // What a link says.
    lemma {:induction false} Follow(k: nat, i: nat)
      requires Mirrors() && Linked<Node?<T>>(nodes, lv, h, null) && k < |h| && i < h[k]
      ensures i < |nodes[k].level|
      ensures var l, j := nodes[k].level[i], NextAt(h, k, i);
              && (j < |h| ==> l.next == nodes[j] && l.span == j - k)
              && (j == |h| ==> l.next == null && l.span == |h| - 1 - k)
    {
      assert lv[k][i] == Link<Node?<T>>(nodes, h, null, k, i);
    }

    // The node after position k at level i, if any, comes before data exactly if it is at or
    // before the position of data.
    lemma {:induction false} Peek(k: nat, i: nat, data: T)
      requires Valid() && k < |h| && i < h[k]
      ensures i < |nodes[k].level|
      ensures var l, j := nodes[k].level[i], NextAt(h, k, i);
              && (l.next == null <==> j == |h|)
              && (j < |h| ==> l.next == nodes[j] && l.span == j - k && j < |nodes| && h[j] > i)
              && (j < |h| ==> (cmp(nodes[j].data, data) < 0 <==> j <= Before(cmp, elems, data)))
    {
      Follow(k, i);
      var j := NextAt(h, k, i);
      if j < |h| {
        BeforeSplits(cmp, elems, data, j - 1);
        assert nodes[j - 1 + 1].data == elems[j - 1];
      }
    }

    // Walk along level i to the last node before data; moved is the distance.
    method Descend(x0: Node<T>, i: nat, data: T, ghost k0: nat) returns (x: Node<T>, moved: nat)
      requires Valid() && i < level
      requires k0 <= Before(cmp, elems, data) && x0 == nodes[k0] && h[k0] > i
      ensures var k, p := k0 + moved, Before(cmp, elems, data) + 1;
              IsPrev(h, p, i, k) && x == nodes[k]
    {
      x, moved := x0, 0;
      ghost var k := k0;
      Peek(k, i, data);
      while x.level[i].next != null && cmp(x.level[i].next.data, data) < 0
        invariant 0 <= k <= Before(cmp, elems, data) && k == k0 + moved && x == nodes[k] && h[k] > i
        invariant i < |x.level|
        decreases |h| - k
      {
        ghost var k1 := Passed(x, k, i, data);
        moved := moved + x.level[i].span;
        x, k := x.level[i].next, k1;
      }
      Peek(k, i, data);
    }

    // The next node of level i comes before data too.
    lemma {:induction false} Passed(x: Node<T>, k: nat, i: nat, data: T) returns (k1: nat)
      requires Valid() && i < level && k <= Before(cmp, elems, data) && x == nodes[k] && h[k] > i && i < |x.level|
      requires x.level[i].next != null && cmp(x.level[i].next.data, data) < 0
      ensures k < k1 <= Before(cmp, elems, data) && k1 == k + x.level[i].span && x.level[i].next == nodes[k1]
      ensures h[k1] > i && i < |nodes[k1].level|
    {
      Peek(k, i, data);
      k1 := NextAt(h, k, i);
      Peek(k1, i, data);
    }

    // The last node before data at every level, and its rank.
    method FindPrev(data: T) returns (update: seq<Node<T>>, rank: seq<nat>)
      requires Valid()
      ensures |update| == |rank| == MAX_LEVEL
      ensures Cuts(h, Before(cmp, elems, data) + 1, rank)
      ensures forall i :: 0 <= i < level ==> update[i] == nodes[rank[i]]
      ensures forall i :: level <= i < MAX_LEVEL ==> update[i] == header && rank[i] == 0
    {
      update, rank := seq(MAX_LEVEL, _ => header), seq(MAX_LEVEL, _ => 0);
      ghost var p := Before(cmp, elems, data) + 1;
      var x, r := header, 0;
      for i := level downto 0
        invariant |update| == |rank| == MAX_LEVEL
        invariant 0 <= r < p <= |h| && x == nodes[r] && (i > 0 ==> h[r] > i - 1)
        invariant forall m :: i <= m < level ==> IsPrev(h, p, m, rank[m]) && update[m] == nodes[rank[m]]
        invariant forall m :: level <= m < MAX_LEVEL ==> update[m] == header && rank[m] == 0
      {
        var moved;
        x, moved := Descend(x, i, data, r);
        r := r + moved;
        update, rank := update[i := x], rank[i := r];
      }
    }

    // The bottom level goes through every node.
    lemma {:induction false} Bottom(k: nat)
      requires Heights() && k < |h|
      ensures NextAt(h, k, 0) == k + 1
    {
    }

    // The last node before data, and its rank.
    method WalkTo(data: T) returns (x: Node<T>, rank: nat)
      requires Valid()
      ensures rank == Before(cmp, elems, data) && x == nodes[rank] && 0 < |x.level|
    {
      x, rank := header, 0;
      for i := level downto 0
        invariant 0 <= rank <= Before(cmp, elems, data) && x == nodes[rank] && (i > 0 ==> h[rank] > i - 1)
        invariant i < level ==> IsPrev(h, Before(cmp, elems, data) + 1, i, rank)
      {
        var moved;
        x, moved := Descend(x, i, data, rank);
        rank := rank + moved;
      }
      Bottom(rank);
    }

    // The node after position k, if any.
    lemma {:induction false} After(k: nat)
      requires Valid() && k < |h|
      ensures 0 < |nodes[k].level|
      ensures k < |elems| ==> nodes[k].level[0].next == nodes[k + 1] && nodes[k + 1].data == elems[k]
      ensures k == |elems| ==> nodes[k].level[0].next == null
    {
      Bottom(k);
      Follow(k, 0);
    }

    method Contains(data: T) returns (r: bool)
      requires Valid()
      ensures r <==> data in elems
    {
      var x, rank := WalkTo(data);
      After(rank);
      FoundAt(cmp, elems, data);
      var y := x.level[0].next;
      r := y != null && cmp(y.data, data) == 0;
    }

    // The 1-based position of data, or -1.
    method GetRank(data: T) returns (r: int)
      requires Valid()
      ensures data in elems ==> 1 <= r <= |elems| && elems[r - 1] == data
      ensures data !in elems ==> r == -1
    {
      var x, rank := WalkTo(data);
      After(rank);
      FoundAt(cmp, elems, data);
      var y := x.level[0].next;
      if y != null && cmp(y.data, data) == 0 {
        return rank + 1;
      }
      return -1;
    }

    // Walk along level i as far as rank allows.
    method Advance(x0: Node<T>, i: nat, rank: int, visited0: nat) returns (x: Node<T>, visited: nat)
      requires Valid() && i < level && visited0 < |h| && x0 == nodes[visited0] && h[visited0] > i
      requires visited0 <= rank || visited0 == 0
      ensures visited < |h| && x == nodes[visited] && h[visited] > i && (visited <= rank || visited == 0)
      ensures NextAt(h, visited, i) == |h| || NextAt(h, visited, i) > rank
    {
      x, visited := x0, visited0;
      Follow(visited, i);
      while x.level[i].next != null && visited + x.level[i].span <= rank
        invariant 0 <= visited < |h| && x == nodes[visited] && h[visited] > i && i < |x.level|
        invariant visited <= rank || visited == 0
        decreases |h| - visited
      {
        Follow(visited, i);
        ghost var j := NextAt(h, visited, i);
        visited := visited + x.level[i].span;
        x := x.level[i].next;
        Follow(j, i);
      }
      Follow(visited, i);
    }

    // The node at a rank; rank 0 is the header.
    method GetNodeByRank(rank: int) returns (x: Node?<T>)
      requires Valid()
      ensures 0 <= rank <= |elems| ==> x == nodes[rank]
      ensures !(0 <= rank <= |elems|) ==> x == null
    {
      var y, visited := header, 0;
      for i := level downto 0
        invariant 0 <= visited < |h| && y == nodes[visited] && (i > 0 ==> h[visited] > i - 1)
        invariant visited <= rank || visited == 0
        invariant i < level ==> visited != rank && (NextAt(h, visited, i) == |h| || NextAt(h, visited, i) > rank)
      {
        y, visited := Advance(y, i, rank, visited);
        if visited == rank {
          return y;
        }
      }
      Bottom(visited);
      x := null;
    }

    method SearchByRank(rank: int, zero: T) returns (data: T, ok: bool)
      requires Valid()
      ensures ok <==> 0 <= rank <= |elems|
      ensures 1 <= rank <= |elems| ==> data == elems[rank - 1]
      ensures rank == 0 ==> data == header.data
      ensures !ok ==> data == zero
    {
      var node := GetNodeByRank(rank);
      if node != null {
        assert rank > 0 ==> nodes[rank - 1 + 1].data == elems[rank - 1];
        return node.data, true;
      }
      return zero, false;
    }

    // Data by rank, the header counting as rank 0.
    ghost function All(): seq<T>
      reads this, header
    {
      [header.data] + elems
    }

    // One step along the bottom level.
    lemma {:induction false} Step(k: nat)
      requires Valid() && k < |h|
      ensures k < |All()| == |h| && nodes[k].data == All()[k] && 0 < |nodes[k].level|
      ensures nodes[k].level[0].next == if k + 1 < |All()| then nodes[k + 1] else null
    {
      After(k);
      if k > 0 { After(k - 1); }
    }

    // The bottom level leads from each node to the next, and they hold these data.
    ghost predicate Walk(all: seq<T>)
      reads this, nodes
    {
      |all| == |nodes| && forall k :: 0 <= k < |nodes| ==>
        && nodes[k].data == all[k] && 0 < |nodes[k].level|
        && nodes[k].level[0].next == if k + 1 < |nodes| then nodes[k + 1] else null
    }

    lemma {:induction false} Walks()
      requires Valid()
      ensures Walk(All())
    {
      forall k | 0 <= k < |nodes|
        ensures nodes[k].data == All()[k] && 0 < |nodes[k].level|
        ensures nodes[k].level[0].next == if k + 1 < |nodes| then nodes[k + 1] else null
      {
        Step(k);
      }
    }

    // The data from rank lo to rank hi.
    method SearchByRankRange(lo: int, hi: int) returns (res: seq<T>)
      requires Valid()
      ensures res == if 0 <= lo <= hi && lo < |All()| then All()[lo..if hi < |All()| then hi + 1 else |All()|] else []
    {
      res := [];
      var x := GetNodeByRank(lo);
      if x == null {
        return;
      }
      Walks();
      res := Collect(x, lo, hi, All());
    }

    // Along the bottom level from the node at lo.
    method Collect(x: Node<T>, lo: nat, hi: int, ghost all: seq<T>) returns (res: seq<T>)
      requires Walk(all) && lo < |nodes| && x == nodes[lo]
      ensures res == if lo <= hi then all[lo..if hi < |all| then hi + 1 else |all|] else []
    {
      res := [];
      var y: Node?<T>, r := x, lo;
      while r <= hi && y != null
        invariant lo <= r <= |all| && (lo < r ==> r <= hi + 1)
        invariant res == all[lo..r]
        invariant y == if r < |all| then nodes[r] else null
        decreases |all| - r
      {
        assert y == nodes[r] && y.data == all[r];
        assert y.level[0].next == if r + 1 < |nodes| then nodes[r + 1] else null;
        assert all[lo..r] + [all[r]] == all[lo..r + 1];
        res := res + [y.data];
        r := r + 1;
        y := y.level[0].next;
      }
    }

    // ---- insertion ------------------------------------------------------------

    // The header gets taller: the new levels lead straight to the end.
    method Raise(top: nat)
      requires Valid() && level < top <= MAX_LEVEL
      modifies this`level, this`lv, this`h, header`level
      ensures Valid() && level == top && h == old(h)[0 := top]
    {
      ghost var t := header.level;
      ghost var lv0, h0 := lv, h;
      var i := level;
      while i < top
        modifies header`level
        invariant level <= i <= top && |header.level| == MAX_LEVEL
        invariant forall m :: 0 <= m < MAX_LEVEL ==>
                    header.level[m] == if level <= m < i then Level(null, length) else t[m]
      {
        header.level := header.level[i := Level(header.level[i].next, length)];
        i := i + 1;
      }
      lv := lv[0 := header.level];
      RaiseLinked<Node?<T>>(nodes, lv0, lv, h0, null, top);
      h := h[0 := top];
      level := top;
    }

    // u is the node at k: set its link at level i.
    method SetLink(u: Node<T>, i: nat, l: Level<Node?<T>>, ghost k: nat, ghost cur: seq<seq<Level<Node?<T>>>>)
        returns (ghost cur1: seq<seq<Level<Node?<T>>>>)
      requires |cur| == |nodes| && k < |nodes| && u == nodes[k] && i < |u.level|
      requires forall m, n :: 0 <= m < n < |nodes| ==> nodes[m] != nodes[n]
      requires forall m :: 0 <= m < |nodes| ==> nodes[m].level == cur[m]
      modifies u`level
      ensures cur1 == cur[k := cur[k][i := l]]
      ensures forall m :: 0 <= m < |nodes| ==> nodes[m].level == cur1[m]
    {
      u.level := u.level[i := l];
      cur1 := cur[k := cur[k][i := l]];
    }

    lemma {:induction false} LowestCut(rank: seq<nat>, p: nat)
      requires Heights() && Cuts(h, p, rank)
      ensures rank[0] == p - 1
    {
      assert IsPrev(h, p, 0, rank[0]);
      Bottom(rank[0]);
    }

    // Towers cur of the nodes, cut as far as level n.
    ghost predicate CutTo(cur: seq<seq<Level<Node?<T>>>>, n: nat, update: seq<Node<T>>, rank: seq<nat>, x: Node<T>,
                          top: nat, p: nat)
      reads this`level, this`nodes, this`lv, this`h, nodes`level
    {
      && Heights() && |nodes| == |h| && (forall i, j :: 0 <= i < j < |nodes| ==> nodes[i] != nodes[j])
      && n <= level <= |rank| && |update| == |rank| && 0 < p <= |h| && Cuts(h, p, rank)
      && (forall i :: 0 <= i < level ==> update[i] == nodes[rank[i]])
      && |cur| == |nodes| && (forall k :: 0 <= k < |nodes| ==> nodes[k].level == cur[k])
      && Spliced<Node?<T>>(lv, cur, n, rank, p, x, top)
    }

    // The same, not looked into.
    ghost predicate Cutting(cur: seq<seq<Level<Node?<T>>>>, n: nat, update: seq<Node<T>>, rank: seq<nat>, x: Node<T>,
                            top: nat, p: nat)
      reads this`level, this`nodes, this`lv, this`h, nodes`level
    {
      forall k {:trigger Words.Asked(k)} :: Words.Asked(k) ==> CutTo(cur, n, update, rank, x, top, p)
    }

    // Cut level i: the link before x becomes l.
    method CutLevel(u: Node<T>, i: nat, l: Level<Node?<T>>, update: seq<Node<T>>, rank: seq<nat>, x: Node<T>, top: nat,
                    ghost p: nat, ghost cur: seq<seq<Level<Node?<T>>>>) returns (ghost cur1: seq<seq<Level<Node?<T>>>>)
      requires Cutting(cur, i, update, rank, x, top, p) && i < level && i < |update| == |rank| && u == update[i]
      requires rank[i] < |lv| && i < |lv[rank[i]]|
      requires l == SplicedLink<Node?<T>>(lv[rank[i]][i], true, rank[i], i, p, x, top)
      modifies u`level
      ensures Cutting(cur1, i + 1, update, rank, x, top, p)
    {
      assert Words.Asked(0);
      assert IsPrev(h, p, i, rank[i]);
      SpliceStep<Node?<T>>(lv, cur, i, rank, p, x, top);
      cur1 := SetLink(u, i, l, rank[i], cur);
    }

    // The link at the next cut is still as it was.
    lemma {:induction false} Uncut(cur: seq<seq<Level<Node?<T>>>>, n: nat, update: seq<Node<T>>, rank: seq<nat>,
                                   x: Node<T>, top: nat, p: nat)
      requires Cutting(cur, n, update, rank, x, top, p) && n < level
      ensures n < |update| == |rank| && rank[n] < p && rank[n] < |lv| && n < |lv[rank[n]]| && n < |update[n].level|
      ensures update[n].level[n] == lv[rank[n]][n] && update[n] in nodes
    {
      assert Words.Asked(0);
      assert IsPrev(h, p, n, rank[n]);
      SpliceStep<Node?<T>>(lv, cur, n, rank, p, x, top);
    }

    // Put x in between at level i.
    method LinkLevel(i: nat, update: seq<Node<T>>, rank: seq<nat>, x: Node<T>, top: nat, ghost p: nat,
                     ghost cur: seq<seq<Level<Node?<T>>>>)
        returns (ghost cur1: seq<seq<Level<Node?<T>>>>)
      requires Cutting(cur, i, update, rank, x, top, p) && |rank| > 0 && rank[0] == p - 1
      requires x !in nodes && i < |x.level| == top <= level && TowerTo<Node?<T>>(lv, x.level, i, rank, p)
      modifies nodes`level, x`level
      ensures Cutting(cur1, i + 1, update, rank, x, top, p)
      ensures |x.level| == top && TowerTo<Node?<T>>(lv, x.level, i + 1, rank, p)
    {
      Uncut(cur, i, update, rank, x, top, p);
      TowerStep<Node?<T>>(lv, x.level, i, rank, p);
      var u := update[i];
      var l := u.level[i];
      cur1 := CutLevel(u, i, Level(x, rank[0] - rank[i] + 1), update, rank, x, top, p, cur);
      x.level := x.level[i := Level(l.next, l.span - (rank[0] - rank[i]))];
    }

    // Put x in between at the levels it reaches.
    method LinkIn(update: seq<Node<T>>, rank: seq<nat>, x: Node<T>, top: nat, ghost p: nat)
        returns (ghost cur: seq<seq<Level<Node?<T>>>>)
      requires Cutting(lv, 0, update, rank, x, top, p) && |rank| > 0 && rank[0] == p - 1
      requires x !in nodes && |x.level| == top <= level
      modifies nodes`level, x`level
      ensures Cutting(cur, top, update, rank, x, top, p)
      ensures |x.level| == top && TowerTo<Node?<T>>(lv, x.level, top, rank, p)
    {
      cur := lv;
      for i := 0 to top
        invariant Cutting(cur, i, update, rank, x, top, p)
        invariant |x.level| == top && TowerTo<Node?<T>>(lv, x.level, i, rank, p)
      {
        cur := LinkLevel(i, update, rank, x, top, p, cur);
      }
    }

    // The levels above x just get longer.
    method Lengthen(update: seq<Node<T>>, rank: seq<nat>, x: Node<T>, top: nat, ghost p: nat,
                    ghost cur0: seq<seq<Level<Node?<T>>>>)
        returns (ghost cur: seq<seq<Level<Node?<T>>>>)
      requires Cutting(cur0, top, update, rank, x, top, p) && top <= level
      modifies nodes`level
      ensures Cutting(cur, level, update, rank, x, top, p)
    {
      cur := cur0;
      for i := top to level
        invariant Cutting(cur, i, update, rank, x, top, p)
      {
        Uncut(cur, i, update, rank, x, top, p);
        var u := update[i];
        cur := CutLevel(u, i, Level(u.level[i].next, u.level[i].span + 1), update, rank, x, top, p, cur);
      }
    }

    // The mirror after insertion.
    lemma {:induction false} InsertMirrors(ns: seq<Node<T>>, es: seq<T>, x: Node<T>, p: nat)
      requires |es| == |ns| - 1 && 0 < p <= |ns| && x !in ns
      requires forall i, j :: 0 <= i < j < |ns| ==> ns[i] != ns[j]
      requires forall k :: 0 <= k < |es| ==> ns[k + 1].data == es[k]
      ensures var ns1, es1 := Inserted(ns, p, x), Inserted(es, p - 1, x.data);
              && ns1[0] == ns[0]
              && (forall i, j :: 0 <= i < j < |ns1| ==> ns1[i] != ns1[j])
              && (forall k :: 0 <= k < |es1| ==> ns1[k + 1].data == es1[k])
    {
    }

    // Towers and heights after insertion.
    lemma {:induction false} InsertLevels(ns: seq<Node<T>>, cur: seq<seq<Level<Node?<T>>>>, hs: seq<nat>, x: Node<T>,
                                          p: nat)
      requires 0 < p <= |ns| == |cur| == |hs| && hs[0] == level
      requires forall k :: 0 <= k < |ns| ==> ns[k].level == cur[k]
      requires forall k :: 0 < k < |hs| ==> 1 <= hs[k] <= level && |cur[k]| == hs[k]
      requires 1 <= |x.level| <= level
      ensures var ns1, cur1, hs1 := Inserted(ns, p, x), Inserted(cur, p, x.level), Inserted(hs, p, |x.level|);
              && |ns1| == |cur1| == |hs1| && cur1[0] == cur[0] && hs1[0] == level
              && (forall k :: 0 <= k < |ns1| ==> ns1[k].level == cur1[k])
              && (forall k :: 0 < k < |hs1| ==> 1 <= hs1[k] <= level && |cur1[k]| == hs1[k])
    {
    }

    // What linking a node in does not touch.
    ghost predicate Held()
      reads this`nodes, this`lv, this`h, this`elems, nodes`data
    {
      && nodes != [] && nodes[0] == header && Linked<Node?<T>>(nodes, lv, h, null) && Total(cmp)
      && |elems| == |nodes| - 1 && (forall k :: 0 <= k < |elems| ==> nodes[k + 1].data == elems[k])
    }

    // x becomes the node at p.
    ghost method Adopt(x: Node<T>, cur: seq<seq<Level<Node?<T>>>>, update: seq<Node<T>>, rank: seq<nat>, p: nat)
      requires Cutting(cur, level, update, rank, x, |x.level|, p) && x !in nodes && Held() && length == |elems| + 1
      requires 1 <= |x.level| <= level && TowerTo<Node?<T>>(lv, x.level, |x.level|, rank, p)
      requires 0 < p <= |nodes| && Sorted(cmp, Inserted(elems, p - 1, x.data))
      modifies this`nodes, this`lv, this`h, this`elems
      ensures Valid() && nodes == Inserted(old(nodes), p, x) && elems == Inserted(old(elems), p - 1, x.data)
    {
      Adopted(x, cur, update, rank, p);
      nodes, lv := Inserted(nodes, p, x), Inserted(cur, p, x.level);
      h, elems := Inserted(h, p, |x.level|), Inserted(elems, p - 1, x.data);
    }

    lemma {:induction false} Adopted(x: Node<T>, cur: seq<seq<Level<Node?<T>>>>, update: seq<Node<T>>, rank: seq<nat>,
                                     p: nat)
      requires Cutting(cur, level, update, rank, x, |x.level|, p) && x !in nodes && Held() && 0 < p <= |nodes|
      requires 1 <= |x.level| <= level && TowerTo<Node?<T>>(lv, x.level, |x.level|, rank, p)
      ensures |h| == |nodes| == |cur| && 1 <= level <= MAX_LEVEL
      ensures var ns, ls := Inserted(nodes, p, x), Inserted(cur, p, x.level);
              var hs, es := Inserted(h, p, |x.level|), Inserted(elems, p - 1, x.data);
              && ns[0] == header && |ls| == |hs| == |ns| && (forall i, j :: 0 <= i < j < |ns| ==> ns[i] != ns[j])
              && (forall k :: 0 <= k < |ns| ==> ns[k].level == ls[k])
              && (forall k :: 0 <= k < |es| ==> ns[k + 1].data == es[k])
              && hs[0] == level && |ls[0]| == MAX_LEVEL
              && (forall k :: 0 < k < |hs| ==> 1 <= hs[k] <= level && |ls[k]| == hs[k])
              && (forall i :: level <= i < MAX_LEVEL ==> ls[0][i].next == null)
              && Linked<Node?<T>>(ns, ls, hs, null)
    {
      assert Words.Asked(0);
      SpliceLinked<Node?<T>>(nodes, lv, cur, x.level, h, null, rank, p, x);
      InsertMirrors(nodes, elems, x, p);
      HeadKept(cur, update, rank, x, p);
      CutHeights(cur, update, rank, x, p);
      InsertLevels(nodes, cur, h, x, p);
    }

    lemma {:induction false} CutHeights(cur: seq<seq<Level<Node?<T>>>>, update: seq<Node<T>>, rank: seq<nat>,
                                        x: Node<T>, p: nat)
      requires CutTo(cur, level, update, rank, x, |x.level|, p)
      ensures forall k :: 0 < k < |h| ==> 1 <= h[k] <= level && |cur[k]| == h[k]
    {
    }

    // Cutting does not touch the dead levels of the header.
    lemma {:induction false} HeadKept(cur: seq<seq<Level<Node?<T>>>>, update: seq<Node<T>>, rank: seq<nat>,
                                      x: Node<T>, p: nat)
      requires CutTo(cur, level, update, rank, x, |x.level|, p)
      ensures |cur[0]| == MAX_LEVEL && forall i :: level <= i < MAX_LEVEL ==> cur[0][i] == lv[0][i]
    {
      forall i | level <= i < MAX_LEVEL ensures cur[0][i] == lv[0][i] {
        SpliceAbove<Node?<T>>(lv, cur, level, rank, p, x, |x.level|, 0, i);
      }
    }

    // Find the cuts for data, with the header at least as tall as the new tower.
    method MakeReady(data: T, top: nat) returns (update: seq<Node<T>>, rank: seq<nat>)
      requires Valid() && 1 <= top <= MAX_LEVEL
      modifies this`level, this`lv, this`h, header`level
      ensures Valid() && top <= level && |update| == |rank| == MAX_LEVEL
      ensures Cuts(h, Before(cmp, elems, data) + 1, rank)
      ensures forall i :: 0 <= i < level ==> update[i] == nodes[rank[i]]
    {
      update, rank := FindPrev(data);
      if top > level {
        RaiseCuts(h, Before(cmp, elems, data) + 1, rank, top);
        Raise(top);
      }
    }

    lemma {:induction false} NothingCut(update: seq<Node<T>>, rank: seq<nat>, x: Node<T>, top: nat, p: nat)
      requires Valid() && 0 < p <= |h| && Cuts(h, p, rank) && |update| == |rank| == MAX_LEVEL
      requires forall i :: 0 <= i < level ==> update[i] == nodes[rank[i]]
      ensures Cutting(lv, 0, update, rank, x, top, p)
    {
      SpliceStart<Node?<T>>(lv, rank, p, x, top);
    }

    // The whole splice.
    method SpliceIn(update: seq<Node<T>>, rank: seq<nat>, x: Node<T>, top: nat, ghost p: nat)
        returns (ghost cur: seq<seq<Level<Node?<T>>>>)
      requires Cutting(lv, 0, update, rank, x, top, p) && |rank| > 0 && rank[0] == p - 1
      requires x !in nodes && |x.level| == top <= level && Held()
      modifies nodes`level, x`level
      ensures Cutting(cur, level, update, rank, x, top, p) && Held()
      ensures |x.level| == top && TowerTo<Node?<T>>(lv, x.level, top, rank, p)
    {
      cur := LinkIn(update, rank, x, top, p);
      cur := Lengthen(update, rank, x, top, p, cur);
    }

    // Link a node in at the cuts.
    method LinkNode(x: Node<T>, update: seq<Node<T>>, rank: seq<nat>, ghost p: nat)
      requires Held() && length == |elems| && x !in nodes && 1 <= |x.level| <= level
      requires Cutting(lv, 0, update, rank, x, |x.level|, p) && |rank| > 0 && rank[0] == p - 1
      requires 0 < p <= |nodes| && Sorted(cmp, Inserted(elems, p - 1, x.data))
      modifies this`length, this`nodes, this`lv, this`h, this`elems, nodes`level, x`level
      ensures Valid()
      ensures nodes == Inserted(old(nodes), p, x) && elems == Inserted(old(elems), p - 1, old(x.data))
    {
      ghost var cur := SpliceIn(update, rank, x, |x.level|, p);
      length := length + 1;
      Adopt(x, cur, update, rank, p);
    }

    // A new node for data, linked in at the cuts.
    method AddNode(data: T, top: nat, update: seq<Node<T>>, rank: seq<nat>, ghost p: nat)
      requires Valid() && 1 <= top <= level && 0 < p <= |h| && Cuts(h, p, rank) && |update| == |rank| == MAX_LEVEL
      requires forall i :: 0 <= i < level ==> update[i] == nodes[rank[i]]
      requires rank[0] == p - 1 && Sorted(cmp, Inserted(elems, p - 1, data))
      modifies this`length, this`nodes, this`lv, this`h, this`elems, nodes`level
      ensures Valid() && elems == Inserted(old(elems), p - 1, data)
      ensures forall n <- nodes :: n in old(nodes) || fresh(n)
    {
      var x := new Node<T>(data, seq(top, _ => Level(null, 0)));
      NothingCut(update, rank, x, top, p);
      LinkNode(x, update, rank, p);
    }

    // Insert data, which is not in the list, with a tower of height top; returns its rank.
    method Insert(data: T, top: nat) returns (rank1: nat)
      requires Valid() && data !in elems && 1 <= top <= MAX_LEVEL
      modifies this, nodes
      ensures Valid()
      ensures rank1 == Before(cmp, old(elems), data) + 1 && elems == Inserted(old(elems), rank1 - 1, data)
      ensures forall n <- nodes :: n in old(nodes) || fresh(n)
    {
      InsertSorted(cmp, elems, data);
      var update, rank := MakeReady(data, top);
      ghost var p := Before(cmp, elems, data) + 1;
      LowestCut(rank, p);
      AddNode(data, top, update, rank, p);
      rank1 := rank[0] + 1;
    }

    // ---- removal --------------------------------------------------------------

    // Towers cur of the nodes, with the node x at p cut out as far as level n.
    ghost predicate OutTo(cur: seq<seq<Level<Node?<T>>>>, n: nat, update: seq<Node<T>>, rank: seq<nat>, x: Node<T>,
                          p: nat)
      reads this`level, this`nodes, this`lv, this`h, nodes`level
    {
      && Heights() && |nodes| == |h| && (forall i, j :: 0 <= i < j < |nodes| ==> nodes[i] != nodes[j])
      && Linked<Node?<T>>(nodes, lv, h, null)
      && n <= level <= |rank| && |update| == |rank| && 0 < p < |h| && x == nodes[p] && Cuts(h, p, rank)
      && (forall i :: 0 <= i < level ==> update[i] == nodes[rank[i]])
      && |cur| == |nodes| && (forall k :: 0 <= k < |nodes| ==> nodes[k].level == cur[k])
      && Unspliced<Node?<T>>(lv, cur, n, rank, lv[p])
    }

    // At the next cut: the link is still as it was, x is untouched, and the test of the code
    // is whether x reaches this level.
    lemma {:induction false} StillIn(cur: seq<seq<Level<Node?<T>>>>, n: nat, update: seq<Node<T>>, rank: seq<nat>,
                                     x: Node<T>, p: nat)
      requires OutTo(cur, n, update, rank, x, p) && n < level
      ensures rank[n] < p && n < |lv[rank[n]]| && n < |update[n].level|
      ensures update[n].level[n] == lv[rank[n]][n] && update[n] in nodes
      ensures update[n].level[n].next == x <==> n < |lv[p]|
      ensures |x.level| == |lv[p]| && (n < |lv[p]| ==> x.level[n] == lv[p][n])
    {
      assert IsPrev(h, p, n, rank[n]);
      UnspliceStep<Node?<T>>(lv, cur, n, rank, lv[p]);
      CutLeads(h, p, n, rank[n]);
      assert lv[rank[n]][n] == Link<Node?<T>>(nodes, h, null, rank[n], n);
      if n < |lv[p]| {
        UnspliceAbove<Node?<T>>(lv, cur, n, rank, lv[p], p, n);
      }
    }

    // Level i is cut: the link before x becomes l.
    method OutLevel(u: Node<T>, i: nat, l: Level<Node?<T>>, update: seq<Node<T>>, rank: seq<nat>, x: Node<T>,
                    ghost p: nat, ghost cur: seq<seq<Level<Node?<T>>>>) returns (ghost cur1: seq<seq<Level<Node?<T>>>>)
      requires i < level && OutTo(cur, i, update, rank, x, p) && u == update[i] && i < |lv[rank[i]]|
      requires l == UnsplicedLink<Node?<T>>(lv[rank[i]][i], true, lv[p], i)
      modifies u`level
      ensures OutTo(cur1, i + 1, update, rank, x, p)
    {
      assert IsPrev(h, p, i, rank[i]);
      UnspliceStep<Node?<T>>(lv, cur, i, rank, lv[p]);
      cur1 := SetLink(u, i, l, rank[i], cur);
    }

    // Cut x out of level i.
    method UnlinkLevel(i: nat, update: seq<Node<T>>, rank: seq<nat>, x: Node<T>, ghost p: nat,
                       ghost cur: seq<seq<Level<Node?<T>>>>)
        returns (ghost cur1: seq<seq<Level<Node?<T>>>>)
      requires i < level && OutTo(cur, i, update, rank, x, p)
      modifies nodes`level
      ensures OutTo(cur1, i + 1, update, rank, x, p)
    {
      StillIn(cur, i, update, rank, x, p);
      var u := update[i];
      var l := u.level[i];
      if l.next == x {
        l := Level(x.level[i].next, l.span + x.level[i].span - 1);
      } else {
        l := Level(l.next, l.span - 1);
      }
      cur1 := OutLevel(u, i, l, update, rank, x, p, cur);
    }

    method UnlinkAll(update: seq<Node<T>>, rank: seq<nat>, x: Node<T>, ghost p: nat)
        returns (ghost cur: seq<seq<Level<Node?<T>>>>)
      requires OutTo(lv, 0, update, rank, x, p)
      modifies nodes`level
      ensures OutTo(cur, level, update, rank, x, p)
      ensures forall k :: 0 <= k < |nodes| ==> nodes[k].data == old(nodes[k].data)
    {
      cur := lv;
      for i := 0 to level
        invariant OutTo(cur, i, update, rank, x, p)
      {
        cur := UnlinkLevel(i, update, rank, x, p, cur);
      }
    }

    lemma {:induction false} RemoveMirrors(ns: seq<Node<T>>, es: seq<T>, p: nat)
      requires |es| == |ns| - 1 && 0 < p < |ns|
      requires forall i, j :: 0 <= i < j < |ns| ==> ns[i] != ns[j]
      requires forall k :: 0 <= k < |es| ==> ns[k + 1].data == es[k]
      ensures var ns1, es1 := Removed(ns, p), Removed(es, p - 1);
              && ns1[0] == ns[0] && |es1| == |ns1| - 1
              && (forall i, j :: 0 <= i < j < |ns1| ==> ns1[i] != ns1[j])
              && (forall k :: 0 <= k < |es1| ==> ns1[k + 1].data == es1[k])
    {
    }

    // x is no longer a node.
    ghost method Abandon(x: Node<T>, cur: seq<seq<Level<Node?<T>>>>, update: seq<Node<T>>, rank: seq<nat>, p: nat)
      requires OutTo(cur, level, update, rank, x, p) && nodes[0] == header && length == |elems| - 1
      requires |elems| == |nodes| - 1 && (forall k :: 0 <= k < |elems| ==> nodes[k + 1].data == elems[k])
      requires Total(cmp) && Sorted(cmp, elems)
      modifies this`nodes, this`lv, this`h, this`elems
      ensures Valid() && nodes == Removed(old(nodes), p) && elems == Removed(old(elems), p - 1)
    {
      UnspliceLinked<Node?<T>>(nodes, lv, cur, h, null, rank, p);
      RemoveMirrors(nodes, elems, p);
      RemoveSorted(cmp, elems, p - 1);
      HeadLeft(cur, update, rank, x, p);
      nodes, lv, h, elems := Removed(nodes, p), Removed(cur, p), Removed(h, p), Removed(elems, p - 1);
    }

    lemma {:induction false} HeadLeft(cur: seq<seq<Level<Node?<T>>>>, update: seq<Node<T>>, rank: seq<nat>,
                                      x: Node<T>, p: nat)
      requires OutTo(cur, level, update, rank, x, p)
      ensures |cur[0]| == MAX_LEVEL && forall i :: level <= i < MAX_LEVEL ==> cur[0][i] == lv[0][i]
    {
      forall i | level <= i < MAX_LEVEL ensures cur[0][i] == lv[0][i] {
        UnspliceAbove<Node?<T>>(lv, cur, level, rank, lv[p], 0, i);
      }
    }

    // Drop a level of the header that leads nowhere.
    method LowerOnce()
      requires Valid() && level > 1 && header.level[level - 1].next == null
      modifies this`level, this`h
      ensures Valid() && level == old(level) - 1
    {
      Follow(0, level - 1);
      assert lv[0][level - 1].next == null;
      ghost var h1 := h[0 := level - 1];
      assert Linked<Node?<T>>(nodes, lv, h1, null) && (forall k :: 0 < k < |h1| ==> h1[k] <= level - 1) by {
        LowerLinked<Node?<T>>(nodes, lv, h, null);
      }
      h := h1;
      level := level - 1;
      assert Heights();
    }

    method Lower()
      requires Valid()
      modifies this`level, this`h
      ensures Valid() && (level == 1 || header.level[level - 1].next != null)
    {
      while level > 1 && header.level[level - 1].next == null
        invariant Valid()
        decreases level
      {
        LowerOnce();
      }
    }

    lemma {:induction false} NothingOut(update: seq<Node<T>>, rank: seq<nat>, x: Node<T>, p: nat)
      requires Valid() && 0 < p < |h| && Cuts(h, p, rank) && |update| == |rank| == MAX_LEVEL && x == nodes[p]
      requires forall i :: 0 <= i < level ==> update[i] == nodes[rank[i]]
      ensures OutTo(lv, 0, update, rank, x, p)
    {
      UnspliceStart<Node?<T>>(lv, rank, lv[p]);
    }

    // Delete the node x found at p.
    method Delete(update: seq<Node<T>>, rank: seq<nat>, x: Node<T>, ghost p: nat)
      requires Valid() && OutTo(lv, 0, update, rank, x, p)
      modifies this`length, this`level, this`nodes, this`lv, this`h, this`elems, nodes`level
      ensures Valid() && nodes == Removed(old(nodes), p) && elems == Removed(old(elems), p - 1)
    {
      ghost var cur := UnlinkAll(update, rank, x, p);
      length := length - 1;
      Abandon(x, cur, update, rank, p);
      Lower();
    }

    method Remove(data: T) returns (r: bool)
      requires Valid()
      modifies this, nodes
      ensures Valid() && (r <==> data in old(elems)) && (r ==> Before(cmp, old(elems), data) < |old(elems)|)
      ensures elems == if r then Removed(old(elems), Before(cmp, old(elems), data)) else old(elems)
      ensures r ==> old(elems)[Before(cmp, old(elems), data)] == data
      ensures forall n <- nodes :: n in old(nodes)
    {
      var update, rank := FindPrev(data);
      ghost var p := Before(cmp, elems, data) + 1;
      LowestCut(rank, p);
      After(p - 1);
      FoundAt(cmp, elems, data);
      var x := update[0].level[0].next;
      if x != null && cmp(x.data, data) == 0 {
        NothingOut(update, rank, x, p);
        Delete(update, rank, x, p);
        return true;
      }
      return false;
    }

    // ---- update ---------------------------------------------------------------

    // Whether data fits between the neighbours of the node x at p.
    method Fits(prev: Node<T>, x: Node<T>, data: T, ghost p: nat) returns (r: bool)
      requires Valid() && 0 < p < |nodes| && prev == nodes[p - 1] && x == nodes[p]
      ensures r <==> (p == 1 || cmp(elems[p - 2], data) < 0) && (p == |elems| || cmp(elems[p], data) > 0)
    {
      After(p);
      if p > 1 { After(p - 2); }
      r := (prev == header || cmp(prev.data, data) < 0) &&
           (x.level[0].next == null || cmp(x.level[0].next.data, data) > 0);
    }

    // The node holding data, which is in the list, and the cuts before it.
    method Locate(data: T) returns (update: seq<Node<T>>, rank: seq<nat>, x: Node<T>)
      requires Valid() && data in elems
      ensures var p := Before(cmp, elems, data) + 1;
              p <= |elems| && elems[p - 1] == data && x == nodes[p] && |update| > 0 && update[0] == nodes[p - 1] &&
              OutTo(lv, 0, update, rank, x, p)
    {
      update, rank := FindPrev(data);
      ghost var p := Before(cmp, elems, data) + 1;
      LowestCut(rank, p);
      FoundAt(cmp, elems, data);
      After(p - 1);
      x := update[0].level[0].next;
      NothingOut(update, rank, x, p);
    }

    // Replace was by data, which is not otherwise in the list.  Returns 0 if the position
    // stays the same, and the new rank otherwise.
    method Update(was: T, data: T, top: nat) returns (rank1: nat)
      requires Valid() && was in elems && (data !in elems || data == was) && 1 <= top <= MAX_LEVEL
      modifies this, nodes
      ensures Valid()
      ensures var q := Before(cmp, old(elems), was);
              && q < |old(elems)| && old(elems)[q] == was
              && var rest := Removed(old(elems), q);
                 var n := Before(cmp, rest, data);
                 && elems == Inserted(rest, n, data)
                 && rank1 == if n == q then 0 else n + 1
    {
      var update, rank, x := Locate(was);
      rank1 := UpdateFound(update, rank, x, Before(cmp, elems, was) + 1, data, top);
    }

    // The same for the node x found at p.
    method UpdateFound(update: seq<Node<T>>, rank: seq<nat>, x: Node<T>, ghost p: nat, data: T, top: nat)
      returns (rank1: nat)
      requires Valid() && OutTo(lv, 0, update, rank, x, p) && 0 < p < |nodes| && x == nodes[p] && 1 <= top <= MAX_LEVEL
      requires |update| > 0 && update[0] == nodes[p - 1] && (data !in elems || data == elems[p - 1])
      modifies this, nodes
      ensures Valid()
      ensures var rest := Removed(old(elems), p - 1); var n := Before(cmp, rest, data);
              elems == Inserted(rest, n, data) && rank1 == if n == p - 1 then 0 else n + 1
    {
      UpdatePlace(cmp, elems, p - 1, data);
      var fits := Fits(update[0], x, data, p);
      rank1 := Replace(update, rank, x, p, data, top, fits);
    }

    // Write data over what the node x at p holds if it fits there, or move it.
    method Replace(update: seq<Node<T>>, rank: seq<nat>, x: Node<T>, ghost p: nat, data: T, top: nat, fits: bool)
      returns (r: nat)
      requires Valid() && OutTo(lv, 0, update, rank, x, p) && data !in Removed(elems, p - 1) && 1 <= top <= MAX_LEVEL
      requires fits ==> Sorted(cmp, elems[p - 1 := data])
      modifies this, nodes
      ensures Valid()
      ensures var rest := Removed(old(elems), p - 1); var n := Before(cmp, rest, data);
              if fits then elems == old(elems)[p - 1 := data] && r == 0
              else elems == Inserted(rest, n, data) && r == n + 1
    {
      if fits {
        Overwrite(x, p, data);
        return 0;
      }
      r := Reinsert(update, rank, x, p, data, top);
    }

    // Delete the node x found at p, then insert data.
    method Reinsert(update: seq<Node<T>>, rank: seq<nat>, x: Node<T>, ghost p: nat, data: T, top: nat) returns (r: nat)
      requires Valid() && OutTo(lv, 0, update, rank, x, p) && data !in Removed(elems, p - 1) && 1 <= top <= MAX_LEVEL
      modifies this, nodes
      ensures var rest := Removed(old(elems), p - 1);
              Valid() && elems == Inserted(rest, Before(cmp, rest, data), data) && r == Before(cmp, rest, data) + 1
    {
      Delete(update, rank, x, p);
      assert forall n <- nodes :: n in old(nodes);
      r := Insert(data, top);
    }

    method Clear()
      requires Valid()
      modifies this, header
      ensures Valid() && elems == [] && level == 1 && length == 0
    {
      for i := 0 to MAX_LEVEL
        invariant |header.level| == MAX_LEVEL && forall j :: 0 <= j < i ==> header.level[j] == Level(null, 0)
        modifies header`level
      {
        header.level := header.level[i := Level(null, 0)];
      }
      level, length := 1, 0;
      nodes, lv, h, elems := [header], [header.level], [1], [];
      assert NextAt([1], 0, 0) == 1;
    }

    method Overwrite(x: Node<T>, ghost p: nat, data: T)
      requires Valid() && 0 < p < |nodes| && x == nodes[p] && Sorted(cmp, elems[p - 1 := data])
      modifies this`elems, x`data
      ensures Valid() && elems == old(elems)[p - 1 := data]
    {
      x.data := data;
      elems := elems[p - 1 := data];
    }
  }

  lemma {:induction false} ReplaceIsReinsert<T>(s: seq<T>, q: nat, data: T)
    requires q < |s|
    ensures Inserted(Removed(s, q), q, data) == s[q := data]
  {
  }

  // data fits where s[q] is exactly if it lies between the neighbours; then replacing s[q]
  // is the same as removing it and inserting data.
  lemma {:induction false} UpdatePlace<T(!new)>(cmp: (T, T) -> int, s: seq<T>, q: nat, data: T)
    requires Total(cmp) && Sorted(cmp, s) && q < |s| && (data !in s || data == s[q])
    ensures var rest := Removed(s, q);
            && Sorted(cmp, rest) && data !in rest
            && (Before(cmp, rest, data) == q <==>
                  (q == 0 || cmp(s[q - 1], data) < 0) && (q + 1 == |s| || cmp(s[q + 1], data) > 0))
            && (Before(cmp, rest, data) == q ==> Inserted(rest, q, data) == s[q := data] && Sorted(cmp, s[q := data]))
  {
    var rest := Removed(s, q);
    ReplaceIsReinsert(s, q, data);
    RemoveSorted(cmp, s, q);
    assert data !in rest by {
      forall i | 0 <= i < |rest| ensures rest[i] != data {
        var j := if i < q then i else i + 1;
        assert rest[i] == s[j];
        assert j < q ==> cmp(s[j], s[q]) < 0;
        assert q < j ==> cmp(s[q], s[j]) < 0;
      }
    }
    var n := Before(cmp, rest, data);
    if q > 0 { BeforeSplits(cmp, rest, data, q - 1); }
    if q < |rest| { BeforeSplits(cmp, rest, data, q); }
    if n == q {
      InsertSorted(cmp, rest, data);
    }
  }
}
