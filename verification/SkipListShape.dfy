/** The shape of an indexable skip list, on values: which node follows which at each level,
    and how far away it is.
 */
module SkipListShape {
  // The first position after k whose tower is taller than i, or the end.
  function NextAt(h: seq<nat>, k: nat, i: nat): (j: nat)
    requires k < |h|
    ensures k < j <= |h|
    ensures j < |h| ==> h[j] > i
    decreases |h| - k
  {
    if k + 1 == |h| then |h| else if h[k + 1] > i then k + 1 else NextAt(h, k + 1, i)
  }

  lemma {:induction false} NextAtGap(h: seq<nat>, k: nat, i: nat, m: nat)
    requires k < |h| && k < m < NextAt(h, k, i)
    ensures h[m] <= i
    decreases |h| - k
  {
    if m > k + 1 { NextAtGap(h, k + 1, i, m); }
  }

  lemma {:induction false} NextAtUnique(h: seq<nat>, k: nat, i: nat, j: nat)
    requires k < j <= |h| && (j < |h| ==> h[j] > i) && forall m :: k < m < j ==> h[m] <= i
    ensures NextAt(h, k, i) == j
  {
    var n := NextAt(h, k, i);
    if j < n { NextAtGap(h, k, i, j); }
  }

  // A link of a tower: the next node at that level, if any, and the distance to it, or to
  // the end of the list if there is none.
  datatype Level<N> = Level(next: N, span: int)

  function Link<N>(nodes: seq<N>, h: seq<nat>, nil: N, k: nat, i: nat): Level<N>
    requires |nodes| == |h| && k < |h|
  {
    var j := NextAt(h, k, i);
    if j < |h| then Level(nodes[j], j - k) else Level(nil, |h| - 1 - k)
  }

  // lv are the towers of nodes, of (effective) heights h.
  ghost predicate Linked<N>(nodes: seq<N>, lv: seq<seq<Level<N>>>, h: seq<nat>, nil: N) {
    && |nodes| == |lv| == |h|
    && (forall k :: 0 <= k < |h| ==> h[k] <= |lv[k]|)
    && (forall k, i :: 0 <= k < |h| && 0 <= i < h[k] ==> lv[k][i] == Link(nodes, h, nil, k, i))
  }

  // k is the last position before p whose tower is taller than i.
  predicate IsPrev(h: seq<nat>, p: nat, i: nat, k: nat) {
    k < p <= |h| && h[k] > i && NextAt(h, k, i) >= p
  }

  lemma {:induction false} PrevUnique(h: seq<nat>, p: nat, i: nat, k: nat, m: nat)
    requires IsPrev(h, p, i, k) && IsPrev(h, p, i, m)
    ensures m == k
  {
    if m < k { NextAtGap(h, m, i, k); }
    if k < m { NextAtGap(h, k, i, m); }
  }

  // ---- insertion --------------------------------------------------------------

  function Inserted<A>(s: seq<A>, p: nat, x: A): (r: seq<A>)
    requires p <= |s|
    ensures |r| == |s| + 1
  {
    s[..p] + [x] + s[p..]
  }

  lemma {:induction false} NextBeforeInserted(h: seq<nat>, p: nat, top: nat, k: nat, i: nat)
    requires k < p <= |h|
    ensures var j := NextAt(h, k, i);
            NextAt(Inserted(h, p, top), k, i) == if j < p then j else if top > i then p else j + 1
  {
    var h1, j := Inserted(h, p, top), NextAt(h, k, i);
    var j1 := if j < p then j else if top > i then p else j + 1;
    forall m | k < m < j1 ensures h1[m] <= i {
      if m < p { NextAtGap(h, k, i, m); }
      if m > p { NextAtGap(h, k, i, m - 1); }
    }
    NextAtUnique(h1, k, i, j1);
  }

  lemma {:induction false} NextAfterInserted(h: seq<nat>, p: nat, top: nat, k: nat, i: nat)
    requires p <= k < |h|
    ensures NextAt(Inserted(h, p, top), k + 1, i) == NextAt(h, k, i) + 1
  {
    var h1, j := Inserted(h, p, top), NextAt(h, k, i);
    forall m | k + 1 < m < j + 1 ensures h1[m] <= i {
      NextAtGap(h, k, i, m - 1);
    }
    NextAtUnique(h1, k + 1, i, j + 1);
  }

  lemma {:induction false} NextOfInserted(h: seq<nat>, p: nat, top: nat, k: nat, i: nat)
    requires IsPrev(h, p, i, k)
    ensures NextAt(Inserted(h, p, top), p, i) == NextAt(h, k, i) + 1
  {
    var h1, j := Inserted(h, p, top), NextAt(h, k, i);
    forall m | p < m < j + 1 ensures h1[m] <= i {
      NextAtGap(h, k, i, m - 1);
    }
    NextAtUnique(h1, p, i, j + 1);
  }

  // A link at the cut points to x if x is tall enough; otherwise it just got longer.
  function SplicedLink<N>(l: Level<N>, cut: bool, k: nat, i: nat, p: nat, x: N, top: nat): Level<N> {
    if !cut then l else if i < top then Level(x, p - k) else Level(l.next, l.span + 1)
  }

  // The link of the new node at a level cut at k.
  function NewLink<N>(l: Level<N>, k: nat, p: nat): Level<N> {
    Level(l.next, l.span - (p - 1 - k))
  }

  lemma {:induction false} LinkBefore<N>(nodes: seq<N>, h: seq<nat>, nil: N, p: nat, x: N, top: nat, k: nat, i: nat,
                                         prev: nat)
    requires |nodes| == |h| && k < p <= |h| && i < h[k] && IsPrev(h, p, i, prev)
    ensures SplicedLink(Link(nodes, h, nil, k, i), k == prev, k, i, p, x, top)
         == Link(Inserted(nodes, p, x), Inserted(h, p, top), nil, k, i)
  {
    NextBeforeInserted(h, p, top, k, i);
    if NextAt(h, k, i) >= p { PrevUnique(h, p, i, prev, k); }
  }

  lemma {:induction false} LinkAfter<N>(nodes: seq<N>, h: seq<nat>, nil: N, p: nat, x: N, top: nat, k: nat, i: nat)
    requires |nodes| == |h| && p <= k < |h|
    ensures Link(nodes, h, nil, k, i) == Link(Inserted(nodes, p, x), Inserted(h, p, top), nil, k + 1, i)
  {
    NextAfterInserted(h, p, top, k, i);
  }

  lemma {:induction false} LinkNew<N>(nodes: seq<N>, h: seq<nat>, nil: N, p: nat, x: N, top: nat, k: nat, i: nat)
    requires |nodes| == |h| && IsPrev(h, p, i, k)
    ensures NewLink(Link(nodes, h, nil, k, i), k, p) == Link(Inserted(nodes, p, x), Inserted(h, p, top), nil, p, i)
  {
    NextOfInserted(h, p, top, k, i);
  }

  // The cut at every level.
  ghost predicate Cuts(h: seq<nat>, p: nat, prev: seq<nat>) {
    h != [] && h[0] <= |prev| && forall i :: 0 <= i < h[0] ==> IsPrev(h, p, i, prev[i])
  }

  // Level i is among the lowest n and cut at k.
  predicate CutAt(prev: seq<nat>, n: nat, k: nat, i: nat) {
    i < n && i < |prev| && k == prev[i]
  }

  // Towers lv1 after a node x of height top was put in at p, between towers lv cut at prev,
  // as far as the lowest n levels go.
  ghost predicate Spliced<N>(lv: seq<seq<Level<N>>>, lv1: seq<seq<Level<N>>>, n: nat, prev: seq<nat>, p: nat, x: N,
                             top: nat)
    requires n <= |prev|
  {
    && |lv1| == |lv|
    && (forall k :: 0 <= k < |lv| ==> |lv1[k]| == |lv[k]|)
    && (forall k, i :: 0 <= k < |lv| && 0 <= i < |lv[k]| ==>
          lv1[k][i] == SplicedLink(lv[k][i], CutAt(prev, n, k, i), k, i, p, x, top))
  }

  lemma {:induction false} SpliceStart<N>(lv: seq<seq<Level<N>>>, prev: seq<nat>, p: nat, x: N, top: nat)
    ensures Spliced(lv, lv, 0, prev, p, x, top)
  {
  }

  // Links above the cuts are left alone.
  lemma {:induction false} SpliceAbove<N>(lv: seq<seq<Level<N>>>, lv1: seq<seq<Level<N>>>, n: nat, prev: seq<nat>,
                                          p: nat, x: N, top: nat,
                                         k: nat, i: nat)
    requires n <= |prev| && Spliced(lv, lv1, n, prev, p, x, top) && k < |lv| && n <= i < |lv[k]|
    ensures |lv1[k]| == |lv[k]| && lv1[k][i] == lv[k][i]
  {
  }

  // The lowest n levels of the new node's tower.
  ghost predicate TowerTo<N>(lv: seq<seq<Level<N>>>, tower: seq<Level<N>>, n: nat, prev: seq<nat>, p: nat) {
    && n <= |tower| && n <= |prev|
    && (forall i :: 0 <= i < n ==>
          prev[i] < |lv| && i < |lv[prev[i]]| && tower[i] == NewLink(lv[prev[i]][i], prev[i], p))
  }

  lemma {:induction false} TowerStep<N>(lv: seq<seq<Level<N>>>, tower: seq<Level<N>>, n: nat, prev: seq<nat>, p: nat)
    requires TowerTo(lv, tower, n, prev, p) && n < |tower| && n < |prev| && prev[n] < |lv| && n < |lv[prev[n]]|
    ensures TowerTo(lv, tower[n := NewLink(lv[prev[n]][n], prev[n], p)], n + 1, prev, p)
  {
  }

  // One more level.
  lemma {:induction false} SpliceStep<N>(lv: seq<seq<Level<N>>>, lv1: seq<seq<Level<N>>>, n: nat, prev: seq<nat>,
                                         p: nat, x: N, top: nat)
    requires n < |prev| && Spliced(lv, lv1, n, prev, p, x, top)
    requires prev[n] < |lv| && n < |lv[prev[n]]|
    ensures lv1[prev[n]][n] == lv[prev[n]][n]
    ensures var k := prev[n];
            Spliced(lv, lv1[k := lv1[k][n := SplicedLink(lv[k][n], true, k, n, p, x, top)]], n + 1, prev, p, x, top)
  {
  }

  ghost predicate SpliceReady<N>(nodes: seq<N>, lv: seq<seq<Level<N>>>, lv1: seq<seq<Level<N>>>, tower: seq<Level<N>>,
                                       h: seq<nat>, nil: N, prev: seq<nat>, p: nat, x: N) {
    && Linked(nodes, lv, h, nil) && 0 < p <= |h| && Cuts(h, p, prev) && Spliced(lv, lv1, h[0], prev, p, x, |tower|)
    && |tower| <= h[0] && (forall k :: 0 <= k < |h| ==> h[k] <= h[0])
    && TowerTo(lv, tower, |tower|, prev, p)
  }

  lemma {:induction false} SpliceNew<N>(nodes: seq<N>, lv: seq<seq<Level<N>>>, lv1: seq<seq<Level<N>>>,
                                        tower: seq<Level<N>>,
                                             h: seq<nat>, nil: N, prev: seq<nat>, p: nat, x: N, i: nat)
    requires SpliceReady(nodes, lv, lv1, tower, h, nil, prev, p, x) && i < |tower|
    ensures tower[i] == Link(Inserted(nodes, p, x), Inserted(h, p, |tower|), nil, p, i)
  {
    assert IsPrev(h, p, i, prev[i]);
    assert lv[prev[i]][i] == Link(nodes, h, nil, prev[i], i);
    LinkNew(nodes, h, nil, p, x, |tower|, prev[i], i);
  }

  lemma {:induction false} SpliceBefore<N>(nodes: seq<N>, lv: seq<seq<Level<N>>>, lv1: seq<seq<Level<N>>>,
                                           tower: seq<Level<N>>,
                                                h: seq<nat>, nil: N, prev: seq<nat>, p: nat, x: N, k: nat, i: nat)
    requires SpliceReady(nodes, lv, lv1, tower, h, nil, prev, p, x) && k < p && i < h[k]
    ensures lv1[k][i] == Link(Inserted(nodes, p, x), Inserted(h, p, |tower|), nil, k, i)
  {
    assert IsPrev(h, p, i, prev[i]);
    assert lv[k][i] == Link(nodes, h, nil, k, i);
    LinkBefore(nodes, h, nil, p, x, |tower|, k, i, prev[i]);
  }

  lemma {:induction false} SpliceAfter<N>(nodes: seq<N>, lv: seq<seq<Level<N>>>, lv1: seq<seq<Level<N>>>,
                                          tower: seq<Level<N>>,
                                               h: seq<nat>, nil: N, prev: seq<nat>, p: nat, x: N, k: nat, i: nat)
    requires SpliceReady(nodes, lv, lv1, tower, h, nil, prev, p, x) && p <= k < |h| && i < h[k]
    ensures lv1[k][i] == Link(Inserted(nodes, p, x), Inserted(h, p, |tower|), nil, k + 1, i)
  {
    assert IsPrev(h, p, i, prev[i]);
    assert lv1[k][i] == lv[k][i] == Link(nodes, h, nil, k, i);
    LinkAfter(nodes, h, nil, p, x, |tower|, k, i);
  }

  // Inserting keeps every link right.
  lemma {:induction false} SpliceLinked<N>(nodes: seq<N>, lv: seq<seq<Level<N>>>, lv1: seq<seq<Level<N>>>,
                                           tower: seq<Level<N>>,
                                                h: seq<nat>, nil: N, prev: seq<nat>, p: nat, x: N)
    requires SpliceReady(nodes, lv, lv1, tower, h, nil, prev, p, x)
    ensures Linked(Inserted(nodes, p, x), Inserted(lv1, p, tower), Inserted(h, p, |tower|), nil)
  {
    var nodes1, lv2, h1 := Inserted(nodes, p, x), Inserted(lv1, p, tower), Inserted(h, p, |tower|);
    forall k, i | 0 <= k < |h1| && 0 <= i < h1[k] ensures lv2[k][i] == Link(nodes1, h1, nil, k, i) {
      if k == p {
        SpliceNew(nodes, lv, lv1, tower, h, nil, prev, p, x, i);
      } else if k < p {
        SpliceBefore(nodes, lv, lv1, tower, h, nil, prev, p, x, k, i);
      } else {
        SpliceAfter(nodes, lv, lv1, tower, h, nil, prev, p, x, k - 1, i);
      }
    }
  }

  // ---- removal ----------------------------------------------------------------

  function Removed<A>(s: seq<A>, p: nat): (r: seq<A>)
    requires p < |s|
    ensures |r| == |s| - 1
  {
    s[..p] + s[p + 1..]
  }

  lemma {:induction false} RemovedInverse<A>(s: seq<A>, p: nat)
    requires p < |s|
    ensures Inserted(Removed(s, p), p, s[p]) == s
  {
  }

  // A link at the cut skips the removed node if it led there; otherwise it just got shorter.
  function UnsplicedLink<N>(l: Level<N>, cut: bool, gone: seq<Level<N>>, i: nat): Level<N> {
    if !cut then l
    else if i < |gone| then Level(gone[i].next, l.span + gone[i].span - 1)
    else Level(l.next, l.span - 1)
  }

  lemma {:induction false} UnlinkBefore<N>(nodes: seq<N>, h: seq<nat>, nil: N, p: nat, k: nat, i: nat, prev: nat,
                                           gone: seq<Level<N>>)
    requires |nodes| == |h| && k < p < |h| && i < h[k] && IsPrev(h, p, i, prev)
    requires |gone| == h[p] && (i < h[p] ==> gone[i] == Link(nodes, h, nil, p, i))
    ensures UnsplicedLink(Link(nodes, h, nil, k, i), k == prev, gone, i)
         == Link(Removed(nodes, p), Removed(h, p), nil, k, i)
  {
    var g := Removed(h, p);
    var j := NextAt(g, k, i);
    assert NextAt(h, k, i) == if j < p then j else if h[p] > i then p else j + 1 by {
      RemovedInverse(h, p);
      NextBeforeInserted(g, p, h[p], k, i);
    }
    if j >= p {
      PrevUnique(h, p, i, prev, k);
      assert NextAt(h, p, i) == j + 1 by {
        RemovedInverse(h, p);
        NextOfInserted(g, p, h[p], k, i);
      }
      assert j < |g| ==> Removed(nodes, p)[j] == nodes[j + 1];
    } else {
      assert Removed(nodes, p)[j] == nodes[j];
    }
  }

  lemma {:induction false} UnlinkAfter<N>(nodes: seq<N>, h: seq<nat>, nil: N, p: nat, k: nat, i: nat)
    requires |nodes| == |h| && p <= k < |h| - 1
    ensures Link(nodes, h, nil, k + 1, i) == Link(Removed(nodes, p), Removed(h, p), nil, k, i)
  {
    RemovedInverse(h, p);
    NextAfterInserted(Removed(h, p), p, h[p], k, i);
  }

  // Towers lv1 after the node at p, with tower gone, was cut out at prev, as far as the
  // lowest n levels go.
  ghost predicate Unspliced<N>(lv: seq<seq<Level<N>>>, lv1: seq<seq<Level<N>>>, n: nat, prev: seq<nat>,
                               gone: seq<Level<N>>)
    requires n <= |prev|
  {
    && |lv1| == |lv|
    && (forall k :: 0 <= k < |lv| ==> |lv1[k]| == |lv[k]|)
    && (forall k, i :: 0 <= k < |lv| && 0 <= i < |lv[k]| ==>
          lv1[k][i] == UnsplicedLink(lv[k][i], CutAt(prev, n, k, i), gone, i))
  }

  lemma {:induction false} UnspliceStart<N>(lv: seq<seq<Level<N>>>, prev: seq<nat>, gone: seq<Level<N>>)
    ensures Unspliced(lv, lv, 0, prev, gone)
  {
  }

  // Links above the cuts are left alone, and so is every tower no cut goes through.
  lemma {:induction false} UnspliceAbove<N>(lv: seq<seq<Level<N>>>, lv1: seq<seq<Level<N>>>, n: nat, prev: seq<nat>,
                                            gone: seq<Level<N>>,
                                           k: nat, i: nat)
    requires n <= |prev| && Unspliced(lv, lv1, n, prev, gone) && k < |lv| && i < |lv[k]| && !CutAt(prev, n, k, i)
    ensures |lv1[k]| == |lv[k]| && lv1[k][i] == lv[k][i]
  {
  }

  // A cut leads to the node at p exactly if that is tall enough.
  lemma {:induction false} CutLeads(h: seq<nat>, p: nat, i: nat, k: nat)
    requires IsPrev(h, p, i, k) && p < |h|
    ensures NextAt(h, k, i) == p <==> i < h[p]
  {
    if i < h[p] && NextAt(h, k, i) > p { NextAtGap(h, k, i, p); }
  }

  lemma {:induction false} UnspliceStep<N>(lv: seq<seq<Level<N>>>, lv1: seq<seq<Level<N>>>, n: nat, prev: seq<nat>,
                                           gone: seq<Level<N>>)
    requires n < |prev| && Unspliced(lv, lv1, n, prev, gone)
    requires prev[n] < |lv| && n < |lv[prev[n]]|
    ensures lv1[prev[n]][n] == lv[prev[n]][n]
    ensures var k := prev[n];
            Unspliced(lv, lv1[k := lv1[k][n := UnsplicedLink(lv[k][n], true, gone, n)]], n + 1, prev, gone)
  {
  }

  ghost predicate UnspliceReady<N>(nodes: seq<N>, lv: seq<seq<Level<N>>>, lv1: seq<seq<Level<N>>>,
                                         h: seq<nat>, nil: N, prev: seq<nat>, p: nat) {
    && Linked(nodes, lv, h, nil) && 0 < p < |h| && Cuts(h, p, prev)
    && |lv[p]| == h[p] && Unspliced(lv, lv1, h[0], prev, lv[p])
    && (forall k :: 0 <= k < |h| ==> h[k] <= h[0])
  }

  lemma {:induction false} UnspliceBefore<N>(nodes: seq<N>, lv: seq<seq<Level<N>>>, lv1: seq<seq<Level<N>>>,
                                                  h: seq<nat>, nil: N, prev: seq<nat>, p: nat, k: nat, i: nat)
    requires UnspliceReady(nodes, lv, lv1, h, nil, prev, p) && k < p && i < h[k]
    ensures lv1[k][i] == Link(Removed(nodes, p), Removed(h, p), nil, k, i)
  {
    assert IsPrev(h, p, i, prev[i]);
    assert lv[k][i] == Link(nodes, h, nil, k, i);
    if i < h[p] { assert lv[p][i] == Link(nodes, h, nil, p, i); }
    UnlinkBefore(nodes, h, nil, p, k, i, prev[i], lv[p]);
  }

  lemma {:induction false} UnspliceAfter<N>(nodes: seq<N>, lv: seq<seq<Level<N>>>, lv1: seq<seq<Level<N>>>,
                                                 h: seq<nat>, nil: N, prev: seq<nat>, p: nat, k: nat, i: nat)
    requires UnspliceReady(nodes, lv, lv1, h, nil, prev, p) && p <= k < |h| - 1 && i < h[k + 1]
    ensures lv1[k + 1][i] == Link(Removed(nodes, p), Removed(h, p), nil, k, i)
  {
    assert IsPrev(h, p, i, prev[i]);
    assert lv1[k + 1][i] == lv[k + 1][i] == Link(nodes, h, nil, k + 1, i);
    UnlinkAfter(nodes, h, nil, p, k, i);
  }

  // Removing keeps every link right.
  lemma {:induction false} UnspliceLinked<N>(nodes: seq<N>, lv: seq<seq<Level<N>>>, lv1: seq<seq<Level<N>>>,
                                                  h: seq<nat>, nil: N, prev: seq<nat>, p: nat)
    requires UnspliceReady(nodes, lv, lv1, h, nil, prev, p)
    ensures Linked(Removed(nodes, p), Removed(lv1, p), Removed(h, p), nil)
  {
    var nodes1, lv2, h1 := Removed(nodes, p), Removed(lv1, p), Removed(h, p);
    forall k, i | 0 <= k < |h1| && 0 <= i < h1[k] ensures lv2[k][i] == Link(nodes1, h1, nil, k, i) {
      if k < p {
        UnspliceBefore(nodes, lv, lv1, h, nil, prev, p, k, i);
      } else {
        UnspliceAfter(nodes, lv, lv1, h, nil, prev, p, k, i);
      }
    }
  }

  // ---- the header's height ----------------------------------------------------

  lemma {:induction false} NextAtHead(h: seq<nat>, v: nat, k: nat, i: nat)
    requires k < |h|
    ensures NextAt(h[0 := v], k, i) == NextAt(h, k, i)
    decreases |h| - k
  {
    if k + 1 < |h| && h[k + 1] <= i { NextAtHead(h, v, k + 1, i); }
  }

  lemma {:induction false} NothingTaller(h: seq<nat>, i: nat)
    requires h != [] && forall m :: 0 < m < |h| ==> h[m] <= i
    ensures NextAt(h, 0, i) == |h|
  {
    NextAtUnique(h, 0, i, |h|);
  }

  // Raising the header: the new levels lead from the header to the end.
  lemma {:induction false} RaiseLinked<N>(nodes: seq<N>, lv: seq<seq<Level<N>>>, lv1: seq<seq<Level<N>>>,
                                               h: seq<nat>, nil: N, top: nat)
    requires Linked(nodes, lv, h, nil) && h != [] && h[0] <= top <= |lv[0]|
    requires forall k :: 0 <= k < |h| ==> h[k] <= h[0]
    requires |lv1| == |lv| && lv1[1..] == lv[1..] && |lv1[0]| == |lv[0]|
    requires forall i :: 0 <= i < top ==> lv1[0][i] == if i < h[0] then lv[0][i] else Level(nil, |h| - 1)
    ensures Linked(nodes, lv1, h[0 := top], nil)
  {
    var h1 := h[0 := top];
    forall k, i | 0 <= k < |h1| && 0 <= i < h1[k] ensures lv1[k][i] == Link(nodes, h1, nil, k, i) {
      NextAtHead(h, top, k, i);
      if k == 0 && i >= h[0] {
        NothingTaller(h, i);
      } else {
        assert k > 0 ==> lv1[k] == lv1[1..][k - 1] == lv[k];
        assert lv[k][i] == Link(nodes, h, nil, k, i);
      }
    }
  }

  // Lowering the header by a level that no tower reaches.
  lemma {:induction false} LowerLinked<N>(nodes: seq<N>, lv: seq<seq<Level<N>>>, h: seq<nat>, nil: N)
    requires Linked(nodes, lv, h, nil) && h != [] && h[0] > 0 && NextAt(h, 0, h[0] - 1) == |h|
    requires forall k :: 0 <= k < |h| ==> h[k] <= h[0]
    ensures Linked(nodes, lv, h[0 := h[0] - 1], nil)
    ensures forall k :: 0 < k < |h| ==> h[k] <= h[0] - 1
  {
    var h1 := h[0 := h[0] - 1];
    forall k, i | 0 <= k < |h1| && 0 <= i < h1[k] ensures lv[k][i] == Link(nodes, h1, nil, k, i) {
      NextAtHead(h, h[0] - 1, k, i);
    }
    forall k | 0 < k < |h| ensures h[k] <= h[0] - 1 {
      NextAtGap(h, 0, h[0] - 1, k);
    }
  }

  // At the levels a taller header adds, the cut is the header.
  lemma {:induction false} RaiseCuts(h: seq<nat>, p: nat, prev: seq<nat>, top: nat)
    requires Cuts(h, p, prev) && h[0] <= top <= |prev| && 0 < p <= |h|
    requires forall k :: 0 < k < |h| ==> h[k] <= h[0]
    requires forall i :: h[0] <= i < top ==> prev[i] == 0
    ensures Cuts(h[0 := top], p, prev)
  {
    var h1 := h[0 := top];
    forall i | 0 <= i < top ensures IsPrev(h1, p, i, prev[i]) {
      if i < h[0] {
        assert IsPrev(h, p, i, prev[i]);
      } else {
        NothingTaller(h, i);
      }
      NextAtHead(h, top, prev[i], i);
    }
  }
}
