/** Dependency graphs as values: paths, cycles and orders that put dependencies first. */
module Graphs {
  import opened Sets

  type ID = string
  type Graph = map<ID, set<ID>>

  /** Every edge ends at a vertex. */
  predicate Closed(g: Graph) {
    forall v | v in g :: g[v] <= g.Keys
  }

  predicate Edge(g: Graph, a: ID, b: ID) {
    a in g && b in g[a]
  }

  predicate IsPath(g: Graph, p: seq<ID>) {
    forall i, j | 0 <= i < |p| && 0 <= j < |p| && j == i + 1 :: Edge(g, p[i], p[j])
  }

  /** A path whose last vertex is its first one again. */
  predicate IsCycle(g: Graph, p: seq<ID>) {
    2 <= |p| && IsPath(g, p) && p[0] == p[|p| - 1]
  }

  predicate IsSimpleCycle(g: Graph, p: seq<ID>) {
    IsCycle(g, p) && Distinct(p[1..])
  }

  ghost predicate Acyclic(g: Graph) {
    forall p :: !IsCycle(g, p)
  }

  /** Reflexive and transitive: some path leads from `a` to `b`. */
  ghost predicate Reaches(g: Graph, a: ID, b: ID) {
    exists p :: IsPathBetween(g, p, a, b)
  }

  predicate IsPathBetween(g: Graph, p: seq<ID>, a: ID, b: ID) {
    0 < |p| && IsPath(g, p) && p[0] == a && p[|p| - 1] == b
  }

  /** Every vertex of `s` comes after all of its dependencies. */
  predicate DepsFirst(g: Graph, s: seq<ID>) {
    forall i {:trigger s[i]} | 0 <= i < |s| :: s[i] in g && forall d | d in g[s[i]] :: d in s[..i]
  }

  /** A permutation of the vertices that puts dependencies first. */
  predicate IsTopological(g: Graph, s: seq<ID>) {
    Distinct(s) && Elems(s) == g.Keys && DepsFirst(g, s)
  }

  lemma DepsFirstAppend(g: Graph, s: seq<ID>, v: ID)
    requires DepsFirst(g, s) && v in g && g[v] <= Elems(s)
    ensures DepsFirst(g, s + [v])
  {
    var t := s + [v];
    forall i, d | 0 <= i < |t| && d in g[t[i]] ensures d in t[..i] {
      assert t[..i] == s[..i];
      assert s[..|s|] == s;
    }
  }

  /** A graph that can be ordered has no cycle: positions fall along every edge. */
  lemma {:induction false} OrderedPathFalls(g: Graph, s: seq<ID>, p: seq<ID>, i: nat, j: nat)
    requires Distinct(s) && DepsFirst(g, s)
    requires 2 <= |p| && IsPath(g, p)
    requires i < |s| && s[i] == p[0]
    requires j < |s| && s[j] == p[|p| - 1]
    ensures j < i
  {
    assert Edge(g, p[0], p[1]);
    var k :| 0 <= k < i && s[k] == p[1];
    if |p| > 2 {
      OrderedPathFalls(g, s, p[1..], k, j);
    }
  }

  lemma TopologicalImpliesAcyclic(g: Graph, s: seq<ID>)
    requires IsTopological(g, s)
    ensures Acyclic(g)
  {
    forall p ensures !IsCycle(g, p) {
      if IsCycle(g, p) {
        assert Edge(g, p[0], p[1]);
        assert p[0] in Elems(s);
        var i :| 0 <= i < |s| && s[i] == p[0];
        OrderedPathFalls(g, s, p, i, i);
      }
    }
  }

  /** `path` runs without repetition until its last vertex, which it has visited before. */
  predicate Closing(g: Graph, path: seq<ID>) {
    && 2 <= |path| && IsPath(g, path)
    && Distinct(path[..|path| - 1]) && path[|path| - 1] in path[..|path| - 1]
  }

  function AddEdges(g: Graph, from: ID, ds: set<ID>): Graph
    requires from in g
  {
    g[from := g[from] + ds]
  }

  predicate Subgraph(g: Graph, h: Graph) {
    forall v | v in g :: v in h && g[v] <= h[v]
  }

  lemma SubgraphAcyclic(g: Graph, h: Graph)
    requires Subgraph(g, h) && Acyclic(h)
    ensures Acyclic(g)
  {
    forall p ensures !IsCycle(g, p) {
      if IsCycle(g, p) {
        assert IsCycle(h, p);
      }
    }
  }

  lemma SubPath(g: Graph, p: seq<ID>, i: nat, j: nat)
    requires IsPath(g, p) && i <= j <= |p|
    ensures IsPath(g, p[i..j])
  {
  }

  lemma JoinPaths(g: Graph, p: seq<ID>, q: seq<ID>)
    requires IsPath(g, p) && IsPath(g, q)
    requires p != [] && q != [] && p[|p| - 1] == q[0]
    ensures IsPath(g, p + q[1..])
  {
    var r := p + q[1..];
    forall k | 0 <= k < |r| - 1 ensures Edge(g, r[k], r[k + 1]) {
      if k < |p| - 1 {
        assert r[k] == p[k] && r[k + 1] == p[k + 1];
      } else {
        assert r[k] == q[k + 1 - |p|] && r[k + 1] == q[k + 2 - |p|];
      }
    }
  }

  /** New edges out of `from` close a cycle exactly when some new target already led to `from`. */
  lemma AddEdgesAcyclicIff(g: Graph, from: ID, ds: set<ID>)
    requires Acyclic(g) && from in g
    ensures Acyclic(AddEdges(g, from, ds)) <==> forall d | d in ds :: !Reaches(g, d, from)
  {
    var h := AddEdges(g, from, ds);
    if Acyclic(h) {
      forall d | d in ds ensures !Reaches(g, d, from) {
        if Reaches(g, d, from) {
          var p :| IsPathBetween(g, p, d, from);
          assert IsPath(h, p);
          CloseCycle(h, p, from, d);
        }
      }
    }
    if forall d | d in ds :: !Reaches(g, d, from) {
      forall p ensures !IsCycle(h, p) {
        if IsCycle(h, p) {
          CycleNeedsNewEdge(g, from, ds, p);
        }
      }
    }
  }

  lemma CloseCycle(g: Graph, p: seq<ID>, a: ID, b: ID)
    requires Edge(g, a, b) && IsPathBetween(g, p, b, a)
    ensures IsCycle(g, [a] + p)
  {
    assert IsPath(g, [a, b]);
    JoinPaths(g, [a, b], p);
    assert [a] + p == [a, b] + p[1..];
  }

  /** Turn the cycle so that it starts at `v`. */
  lemma TurnCycle(g: Graph, p: seq<ID>, m: nat) returns (q: seq<ID>)
    requires IsCycle(g, p) && m < |p| - 1
    ensures IsCycle(g, q) && q[0] == p[m]
  {
    SubPath(g, p, m, |p|);
    SubPath(g, p, 0, m + 1);
    JoinPaths(g, p[m..], p[..m + 1]);
    q := p[m..] + p[..m + 1][1..];
  }

  lemma CycleNeedsNewEdge(g: Graph, from: ID, ds: set<ID>, p: seq<ID>)
    requires Acyclic(g) && from in g && IsCycle(AddEdges(g, from, ds), p)
    ensures exists d | d in ds :: Reaches(g, d, from)
  {
    var h := AddEdges(g, from, ds);
    if from !in p[..|p| - 1] {
      assert IsCycle(g, p) by {
        forall i | 0 <= i < |p| - 1 ensures Edge(g, p[i], p[i + 1]) {
          assert Edge(h, p[i], p[i + 1]) && p[i] in p[..|p| - 1];
        }
      }
    } else {
      // Follow the cycle from `from` until it comes back there.
      var m :| 0 <= m < |p| - 1 && p[m] == from;
      var q := TurnCycle(h, p, m);
      var f := FirstReturn(q, from);
      var r := q[1..f + 1];
      assert IsPath(g, r) by {
        forall k | 0 <= k < |r| - 1 ensures Edge(g, r[k], r[k + 1]) {
          assert r[k] == q[k + 1] && r[k + 1] == q[k + 2];
          assert Edge(h, q[k + 1], q[k + 2]) && q[k + 1] in q[1..f];
        }
      }
      assert IsPathBetween(g, r, q[1], from);
      assert Edge(h, q[0], q[1]);
      if Edge(g, from, q[1]) {
        CloseCycle(g, r, from, q[1]);
        assert false;
      }
    }
  }

  lemma FirstReturn(q: seq<ID>, v: ID) returns (f: nat)
    requires 2 <= |q| && q[|q| - 1] == v
    ensures 1 <= f < |q| && q[f] == v && v !in q[1..f]
  {
    f := 1;
    while q[f] != v
      invariant 1 <= f < |q| && v !in q[1..f]
      decreases |q| - f
    {
      assert q[1..f + 1] == q[1..f] + [q[f]];
      f := f + 1;
    }
  }
}
