/** Directed multigraphs given as a list of edges: paths, cycles, and what a
    topological order of part of the graph says about both. */
module Graphs {

  ghost predicate IsPath<T(!new)>(edges: seq<(T, T)>, p: seq<T>) {
    |p| > 0 && forall i :: 0 < i < |p| ==> (p[i - 1], p[i]) in edges
  }

  ghost predicate IsCycle<T(!new)>(edges: seq<(T, T)>, p: seq<T>) {
    IsPath(edges, p) && |p| > 1 && p[0] == p[|p| - 1]
  }

  ghost predicate Acyclic<T(!new)>(edges: seq<(T, T)>) {
    forall p :: !IsCycle(edges, p)
  }

  /** Some directed cycle reaches n; a node on a cycle is reached by the empty walk. */
  ghost predicate BelowCycle<T(!new)>(edges: seq<(T, T)>, n: T) {
    exists c, w :: IsCycle(edges, c) && IsPath(edges, w) && w[0] == c[0] && w[|w| - 1] == n
  }

  ghost predicate Distinct<T(!new)>(s: seq<T>) {
    forall i, j :: 0 <= i < j < |s| ==> s[i] != s[j]
  }

  ghost predicate Before<T(!new)>(order: seq<T>, a: T, b: T) {
    exists i, j :: 0 <= i < j < |order| && order[i] == a && order[j] == b
  }

  /** No node is listed twice, and every predecessor of a listed node is listed before it. */
  ghost predicate TopologicalOrder<T(!new)>(edges: seq<(T, T)>, order: seq<T>) {
    && Distinct(order)
    && forall a, b :: (a, b) in edges && b in order ==> Before(order, a, b)
  }

  lemma PathSlice<T(!new)>(edges: seq<(T, T)>, p: seq<T>, lo: nat, hi: nat)
    requires IsPath(edges, p) && lo < hi <= |p|
    ensures IsPath(edges, p[lo..hi])
  {
    var q := p[lo..hi];
    forall i | 0 < i < |q| ensures (q[i - 1], q[i]) in edges {
      assert q[i - 1] == p[lo + i - 1] && q[i] == p[lo + i];
    }
  }

  // ----- what a topological order excludes -----

  lemma {:induction false} PathClimbsOrder<T(!new)>(edges: seq<(T, T)>, order: seq<T>, p: seq<T>, j: nat)
    returns (i: nat)
    requires TopologicalOrder(edges, order) && IsPath(edges, p)
    requires j < |order| && order[j] == p[|p| - 1]
    ensures i <= j && order[i] == p[0] && (|p| > 1 ==> i < j)
    decreases |p|
  {
    if |p| == 1 {
      i := j;
    } else {
      var k := |p| - 1;
      assert (p[k - 1], p[k]) in edges;
      assert Before(order, p[k - 1], p[k]);
      var m, n :| 0 <= m < n < |order| && order[m] == p[k - 1] && order[n] == p[k];
      i := PathClimbsOrder(edges, order, p[..k], m);
    }
  }

  lemma OrderedIsNotBelowCycle<T(!new)>(edges: seq<(T, T)>, order: seq<T>, n: T)
    requires TopologicalOrder(edges, order) && n in order
    ensures !BelowCycle(edges, n)
  {
    if BelowCycle(edges, n) {
      var c, w :| IsCycle(edges, c) && IsPath(edges, w) && w[0] == c[0] && w[|w| - 1] == n;
      var j :| 0 <= j < |order| && order[j] == n;
      var i := PathClimbsOrder(edges, order, w, j);
      var _ := PathClimbsOrder(edges, order, c, i);
    }
  }

  // ----- a set in which every node has a predecessor contains a cycle -----

  ghost predicate HasPredecessor<T(!new)>(edges: seq<(T, T)>, rest: set<T>, n: T) {
    exists m :: m in rest && (m, n) in edges
  }

  ghost predicate EachHasPredecessor<T(!new)>(edges: seq<(T, T)>, rest: set<T>) {
    forall n {:trigger HasPredecessor(edges, rest, n)} :: n in rest ==> HasPredecessor(edges, rest, n)
  }

  lemma {:induction false} WalkBack<T(!new)>(edges: seq<(T, T)>, rest: set<T>, n: T, k: nat) returns (p: seq<T>)
    requires EachHasPredecessor(edges, rest) && n in rest
    ensures IsPath(edges, p) && |p| == k + 1 && p[k] == n
    ensures forall i :: 0 <= i <= k ==> p[i] in rest
  {
    if k == 0 {
      p := [n];
    } else {
      assert HasPredecessor(edges, rest, n);
      var m :| m in rest && (m, n) in edges;
      var q := WalkBack(edges, rest, m, k - 1);
      p := q + [n];
      forall i | 0 < i < |p| ensures (p[i - 1], p[i]) in edges {
        assert p[i - 1] == q[i - 1] && (i < k ==> p[i] == q[i]);
      }
    }
  }

  lemma {:induction false} Pigeonhole<T(!new)>(p: seq<T>, s: set<T>) returns (i: nat, j: nat)
    requires forall k :: 0 <= k < |p| ==> p[k] in s
    requires |p| > |s|
    ensures i < j < |p| && p[i] == p[j]
  {
    if k :| 1 <= k < |p| && p[k] == p[0] {
      i, j := 0, k;
    } else {
      assert p[0] in s;
      i, j := Pigeonhole(p[1..], s - {p[0]});
      i, j := i + 1, j + 1;
    }
  }

  lemma RestIsBelowCycle<T(!new)>(edges: seq<(T, T)>, rest: set<T>, n: T)
    requires EachHasPredecessor(edges, rest) && n in rest
    ensures BelowCycle(edges, n)
  {
    var p := WalkBack(edges, rest, n, |rest|);
    var i, j := Pigeonhole(p, rest);
    var c, w := p[i..j + 1], p[j..];
    PathSlice(edges, p, i, j + 1);
    PathSlice(edges, p, j, |p|);
    assert IsCycle(edges, c) && IsPath(edges, w) && w[0] == c[0] && w[|w| - 1] == n;
  }

  lemma AcyclicIffNothingBelow<T(!new)>(edges: seq<(T, T)>)
    ensures Acyclic(edges) <==> forall n :: !BelowCycle(edges, n)
  {
    if c :| IsCycle(edges, c) {
      assert IsPath(edges, [c[0]]);
      assert BelowCycle(edges, c[0]);
    }
  }

  /** A path in an acyclic graph never returns to a node. */
  lemma AcyclicPathIsDistinct<T(!new)>(edges: seq<(T, T)>, p: seq<T>)
    requires Acyclic(edges) && IsPath(edges, p)
    ensures Distinct(p)
  {
    forall i, j | 0 <= i < j < |p| ensures p[i] != p[j] {
      assert !IsCycle(edges, p[i..j + 1]);
    }
  }

  lemma {:induction false} DistinctFits<T(!new)>(p: seq<T>, s: set<T>)
    requires Distinct(p) && forall k :: 0 <= k < |p| ==> p[k] in s
    ensures |p| <= |s|
  {
    if |p| > |s| {
      var i, j := Pigeonhole(p, s);
    }
  }
}
