// Collapsing a log of writes to dotted paths into one update without conflicts
// (db/mongo/delta/collector.go).
module Delta {
  datatype Pair<V> = Pair(key: string, val: V)

  // ---- dotted paths -------------------------------------------------------------------

  ghost predicate Ancestor(a: string, k: string) {
    |a| < |k| && k[..|a|] == a && k[|a|] == '.'
  }

  lemma {:induction false} AncestorsChain(a: string, b: string, c: string)
    requires Ancestor(a, b) && Ancestor(b, c)
    ensures Ancestor(a, c)
  {
    assert c[..|a|] == b[..|a|];
  }

  // The place of the first dot, or the length.
  function Dot(s: string): (i: nat)
    ensures i <= |s| && (i < |s| ==> s[i] == '.') && forall j :: 0 <= j < i ==> s[j] != '.'
  {
    if s == "" || s[0] == '.' then 0 else 1 + Dot(s[1..])
  }

  function Split(s: string): (parts: seq<string>)
    ensures |parts| >= 1
  {
    var i := Dot(s);
    if i == |s| then [s] else [s[..i]] + Split(s[i + 1..])
  }

  // ---- the rule for one write ---------------------------------------------------------------

  ghost predicate Covered<V>(tree: map<string, V>, k: string) {
    exists a :: a in tree && Ancestor(a, k)
  }

  ghost function Below<V>(tree: map<string, V>, k: string): set<string> {
    set x | x in tree && Ancestor(k, x)
  }

  ghost function Write<V>(tree: map<string, V>, k: string, v: V): map<string, V> {
    if Covered(tree, k) then tree else (tree - Below(tree, k))[k := v]
  }

  // ---- what the result is -------------------------------------------------------------------

  ghost predicate Written<V>(log: seq<Pair<V>>, k: string) {
    exists i :: 0 <= i < |log| && log[i].key == k
  }

  // The value of the last write to k.
  ghost function Last<V>(log: seq<Pair<V>>, k: string): V
    requires Written(log, k)
  {
    var n := |log| - 1;
    if log[n].key == k then log[n].val
    else
      assert Written(log[..n], k) by { var i :| 0 <= i < |log| && log[i].key == k; assert log[..n][i].key == k; }
      Last(log[..n], k)
  }

  // A key survives exactly if it was written and nothing above it ever was.
  ghost predicate Survives<V>(log: seq<Pair<V>>, k: string) {
    Written(log, k) && forall a :: Written(log, a) ==> !Ancestor(a, k)
  }

  ghost predicate IsCollapse<V>(log: seq<Pair<V>>, tree: map<string, V>) {
    && (forall k :: k in tree <==> Survives(log, k))
    && (forall k :: k in tree ==> Written(log, k) && tree[k] == Last(log, k))
  }

  lemma {:induction false} WrittenMore<V>(log: seq<Pair<V>>, k: string)
    requires log != []
    ensures var n := |log| - 1; Written(log, k) <==> Written(log[..n], k) || log[n].key == k
  {
    var n := |log| - 1;
    if Written(log[..n], k) { var i :| 0 <= i < n && log[..n][i].key == k; assert log[i].key == k; }
    if Written(log, k) && log[n].key != k { var i :| 0 <= i < |log| && log[i].key == k; assert log[..n][i].key == k; }
  }

  // Above a written key there is a written key with nothing written above it.
  lemma {:induction false} TopWritten<V>(log: seq<Pair<V>>, k: string) returns (a: string)
    requires Written(log, k)
    ensures Survives(log, a) && (a == k || Ancestor(a, k))
    decreases |k|
  {
    if Survives(log, k) {
      a := k;
    } else {
      var b :| Written(log, b) && Ancestor(b, k);
      a := TopWritten(log, b);
      if a != b { AncestorsChain(a, b, k); }
    }
  }

  lemma {:induction false} WriteCollapses<V>(rest: seq<Pair<V>>, p: Pair<V>, tree: map<string, V>)
    requires IsCollapse(rest, tree)
    ensures IsCollapse(rest + [p], Write(tree, p.key, p.val))
  {
    var log := rest + [p];
    assert log[..|log| - 1] == rest;
    forall x ensures Written(log, x) <==> Written(rest, x) || p.key == x { WrittenMore(log, x); }
    assert Covered(tree, p.key) <==> exists a :: Written(rest, a) && Ancestor(a, p.key) by {
      if a :| Written(rest, a) && Ancestor(a, p.key) {
        var b := TopWritten(rest, a);
        if b != a { AncestorsChain(b, a, p.key); }
        assert b in tree && Ancestor(b, p.key);
      }
    }
    forall k ensures k in Write(tree, p.key, p.val) <==> Survives(log, k) {
      if Covered(tree, p.key) && Ancestor(p.key, k) {
        var a :| a in tree && Ancestor(a, p.key);
        AncestorsChain(a, p.key, k);
      }
    }
  }

  // No key of the update is above another, and every written key is in it or below one that is.
  lemma {:induction false} NoConflicts<V>(log: seq<Pair<V>>, tree: map<string, V>)
    requires IsCollapse(log, tree)
    ensures forall a, b :: a in tree && b in tree ==> !Ancestor(a, b)
    ensures forall k :: Written(log, k) ==> k in tree || Covered(tree, k)
  {
    forall k | Written(log, k) ensures k in tree || Covered(tree, k) {
      var a := TopWritten(log, k);
      assert a in tree;
    }
  }

  // The update is determined by the log.
  lemma {:induction false} OneCollapse<V>(log: seq<Pair<V>>, t1: map<string, V>, t2: map<string, V>)
    requires IsCollapse(log, t1) && IsCollapse(log, t2)
    ensures t1 == t2
  {
    assert forall k :: k in t1 <==> k in t2;
  }

  // ---- the collector ----------------------------------------------------------------------------

  // The first part of k from n on.
  lemma {:induction false} SplitStep(k: string, n: nat)
    requires n <= |k|
    ensures var parts := Split(k[n..]); var m := n + |parts[0]|;
            && m <= |k| && k[..m] == k[..n] + parts[0] && (forall d :: n <= d < m ==> k[d] != '.')
            && (|parts| > 1 <==> m < |k|)
            && (m < |k| ==> k[m] == '.' && k[..m + 1] == k[..m] + "." && Split(k[m + 1..]) == parts[1..])
  {
    var s := k[n..];
    var i := Dot(s);
    assert forall d :: 0 <= d < |s| ==> s[d] == k[n + d];
    if i < |s| { assert s[i + 1..] == k[n + i + 1..]; }
  }

  lemma {:induction false} NextPrefix<V>(tree: map<string, V>, k: string, n: nat, parts: seq<string>)
    requires n <= |k| && Split(k[n..]) == parts && |parts| > 1 && NoneAt(tree, k, n)
    ensures var m := n + |parts[0]|;
            && m < |k| && k[..n] + parts[0] == k[..m] && k[..m] + "." == k[..m + 1] && Split(k[m + 1..]) == parts[1..]
            && (k[..m] in tree ==> Covered(tree, k)) && (k[..m] !in tree ==> NoneAt(tree, k, m + 1))
  {
    SplitStep(k, n);
    var m := n + |parts[0]|;
    if k[..m] in tree { assert Ancestor(k[..m], k); }
  }

  lemma {:induction false} NoMorePrefix<V>(tree: map<string, V>, k: string, n: nat)
    requires n <= |k| && |Split(k[n..])| == 1 && NoneAt(tree, k, n)
    ensures !Covered(tree, k)
  {
    SplitStep(k, n);
  }

  // Whether the tree holds an ancestor of k, by building up its prefixes part by part.
  method HasAncestor<V>(tree: map<string, V>, k: string) returns (r: bool)
    ensures r <==> Covered(tree, k)
  {
    var parts := Split(k);
    var prefix := "";
    ghost var n: nat := 0;
    assert k[0..] == k;
    for i := 0 to |parts| - 1
      invariant n <= |k| && prefix == k[..n] && Split(k[n..]) == parts[i..] && NoneAt(tree, k, n)
    {
      NextPrefix(tree, k, n, parts[i..]);
      prefix := prefix + parts[i];
      n := n + |parts[i]|;
      if prefix in tree { return true; }
      prefix := prefix + ".";
      n := n + 1;
    }
    NoMorePrefix(tree, k, n);
    return false;
  }

  // No ancestor of k that ends before n is in the tree.
  ghost predicate NoneAt<V>(tree: map<string, V>, k: string, n: nat) {
    forall d :: 0 <= d < n && d < |k| && k[d] == '.' ==> k[..d] !in tree
  }

  method DeletePrefix<V>(tree: map<string, V>, p: string) returns (r: map<string, V>)
    ensures r == map x | x in tree && !(p <= x) :: tree[x]
  {
    r := map x | x in tree && !(p <= x) :: tree[x];
  }

  class DeltaCollector<V(!new)> {
    var pairs: seq<Pair<V>>

    constructor ()
      ensures pairs == []
    {
      pairs := [];
    }

    method Reset()
      modifies this
      ensures pairs == []
    {
      pairs := [];
    }

    method Collect(key: string, val: V)
      modifies this
      ensures pairs == old(pairs) + [Pair(key, val)]
    {
      pairs := pairs + [Pair(key, val)];
    }

    // Collapse what was collected.
    method CatchDeltaData() returns (tree: map<string, V>)
      ensures IsCollapse(pairs, tree)
    {
      tree := map[];
      for i := 0 to |pairs|
        invariant IsCollapse(pairs[..i], tree)
      {
        var k, v := pairs[i].key, pairs[i].val;
        ghost var was := tree;
        var above := HasAncestor(tree, k);
        if !above {
          tree := DeletePrefix(tree, k + ".");
          assert tree == was - Below(was, k) by {
            forall x | x in was ensures k + "." <= x <==> Ancestor(k, x) { PrefixIsAncestor(k, x); }
          }
          tree := tree[k := v];
        }
        WriteCollapses(pairs[..i], pairs[i], was);
        assert pairs[..i + 1] == pairs[..i] + [pairs[i]];
      }
      assert pairs[..|pairs|] == pairs;
    }
  }

  lemma {:induction false} PrefixIsAncestor(k: string, x: string)
    ensures k + "." <= x <==> Ancestor(k, x)
  {
    var p := k + ".";
    if p <= x { assert x[..|k|] == p[..|k|] == k && x[|k|] == p[|k|]; }
    if Ancestor(k, x) { assert x[..|p|] == x[..|k|] + [x[|k|]]; }
  }
}
