/** What inserting dependencies does to a graph, and what any series of insertions keeps. */
module Insertion {
  import opened Sets
  import opened Graphs

  datatype Outcome = Added | DuplicateVertex(id: ID) | MissingVertex(id: ID) | SelfReference | Cycle(path: seq<ID>) {
    /** The outcome without the witness of the cycle, which depends on how maps are walked. */
    function Kind(): Outcome {
      if Cycle? then Cycle([]) else this
    }
  }

  predicate Refused(g: Graph, from: ID, d: ID) {
    d !in g || d == from
  }

  /** The position of the first dependency that is refused, or the length of the list. */
  function FirstRefused(g: Graph, from: ID, ds: seq<ID>): (k: nat)
    ensures k <= |ds|
  {
    if ds == [] || Refused(g, from, ds[0]) then 0 else 1 + FirstRefused(g, from, ds[1..])
  }

  lemma {:induction false} FirstRefusedIs(g: Graph, from: ID, ds: seq<ID>, k: nat)
    requires k <= |ds| && (k < |ds| ==> Refused(g, from, ds[k]))
    requires forall j | 0 <= j < k :: !Refused(g, from, ds[j])
    ensures FirstRefused(g, from, ds) == k
  {
    if k > 0 {
      FirstRefusedIs(g, from, ds[1..], k - 1);
    }
  }

  /** The graph and the kind of outcome after asking that `from` depend on `ds`. */
  ghost function Insert(g: Graph, from: ID, ds: seq<ID>): (Graph, Outcome) {
    if from !in g then (g, MissingVertex(from))
    else
      var k := FirstRefused(g, from, ds);
      if k < |ds| then
        // Edges to the earlier dependencies stay, unchecked.
        (AddEdges(g, from, Elems(ds[..k])), if ds[k] !in g then MissingVertex(ds[k]) else SelfReference)
      else if Acyclic(AddEdges(g, from, Elems(ds))) then (AddEdges(g, from, Elems(ds)), Added)
      else (RemoveEdges(g, from, Elems(ds)), Cycle([]))
  }

  function RemoveEdges(g: Graph, from: ID, ds: set<ID>): Graph
    requires from in g
  {
    g[from := g[from] - ds]
  }

  lemma AddNoEdges(g: Graph, from: ID, ds: seq<ID>)
    requires from in g
    ensures AddEdges(g, from, Elems(ds[..0])) == g
  {
    assert g[from] + Elems(ds[..0]) == g[from];
  }

  lemma RemoveNoEdges(g: Graph, from: ID, ds: seq<ID>)
    requires from in g
    ensures RemoveEdges(AddEdges(g, from, Elems(ds)), from, Elems(ds[..0])) == AddEdges(g, from, Elems(ds))
  {
    assert g[from] + Elems(ds) - Elems(ds[..0]) == g[from] + Elems(ds);
  }

  lemma AddOneEdge(g: Graph, from: ID, ds: seq<ID>, i: nat)
    requires from in g && i < |ds|
    ensures AddEdges(g, from, Elems(ds[..i + 1])) == AddEdges(AddEdges(g, from, Elems(ds[..i])), from, {ds[i]})
  {
    assert g[from] + Elems(ds[..i + 1]) == g[from] + Elems(ds[..i]) + {ds[i]};
  }

  lemma RemoveOneEdge(g: Graph, from: ID, ds: seq<ID>, i: nat)
    requires from in g && i < |ds|
    ensures RemoveEdges(g, from, Elems(ds[..i + 1])) == RemoveEdges(RemoveEdges(g, from, Elems(ds[..i])), from, {ds[i]})
  {
    assert g[from] - Elems(ds[..i + 1]) == g[from] - Elems(ds[..i]) - {ds[i]};
  }

  /** One call on the graph under construction. */
  datatype Call = AddVertex(id: ID) | AddDependencies(from: ID, dependencies: seq<ID>)

  ghost function Perform(g: Graph, c: Call): (Graph, Outcome) {
    match c
    case AddVertex(id) => if id in g then (g, DuplicateVertex(id)) else (g[id := {}], Added)
    case AddDependencies(from, ds) => Insert(g, from, ds)
  }

  /** The graph after all of `calls`, and whether none of them stopped half-way. */
  ghost function PerformAll(g: Graph, calls: seq<Call>): (Graph, bool)
    decreases calls
  {
    if calls == [] then (g, true)
    else
      var (h, outcome) := Perform(g, calls[0]);
      var (last, whole) := PerformAll(h, calls[1..]);
      (last, whole && !outcome.MissingVertex? && !outcome.SelfReference?)
  }

  /** Edges of the graph always join vertices, and no cycle arises unless a call stops half-way. */
  lemma {:induction false} CallsKeepAcyclic(g: Graph, calls: seq<Call>)
    requires Closed(g)
    ensures Closed(PerformAll(g, calls).0)
    ensures Acyclic(g) && PerformAll(g, calls).1 ==> Acyclic(PerformAll(g, calls).0)
    decreases calls
  {
    if calls != [] {
      var (h, outcome) := Perform(g, calls[0]);
      match calls[0] {
        case AddVertex(id) =>
          if Acyclic(g) && id !in g {
            NewVertexAcyclic(g, id);
          }
        case AddDependencies(from, ds) =>
          InsertClosed(g, from, ds);
          if Acyclic(g) && outcome.Cycle? {
            SubgraphAcyclic(h, g);
          }
      }
      CallsKeepAcyclic(h, calls[1..]);
    }
  }

  lemma NewVertexAcyclic(g: Graph, id: ID)
    requires Acyclic(g) && id !in g
    ensures Acyclic(g[id := {}])
  {
    var h := g[id := {}];
    forall p ensures !IsCycle(h, p) {
      if IsCycle(h, p) {
        forall i | 0 <= i < |p| - 1 ensures Edge(g, p[i], p[i + 1]) {
          assert Edge(h, p[i], p[i + 1]);
        }
        assert IsCycle(g, p);
      }
    }
  }

  lemma {:induction false} AcceptedAreVertices(g: Graph, from: ID, ds: seq<ID>)
    ensures forall j | 0 <= j < FirstRefused(g, from, ds) :: !Refused(g, from, ds[j])
    ensures FirstRefused(g, from, ds) < |ds| ==> Refused(g, from, ds[FirstRefused(g, from, ds)])
  {
    if ds != [] && !Refused(g, from, ds[0]) {
      AcceptedAreVertices(g, from, ds[1..]);
      forall j | 0 <= j < FirstRefused(g, from, ds) ensures !Refused(g, from, ds[j]) {
        assert j == 0 || ds[j] == ds[1..][j - 1];
      }
    }
  }

  lemma InsertClosed(g: Graph, from: ID, ds: seq<ID>)
    requires Closed(g)
    ensures Closed(Insert(g, from, ds).0)
  {
    AcceptedAreVertices(g, from, ds);
  }

  /** A call that stops half-way leaves a cycle exactly when an accepted dependency already led to `from`. */
  lemma RefusalAcyclicIff(g: Graph, from: ID, ds: seq<ID>)
    requires Acyclic(g) && from in g && FirstRefused(g, from, ds) < |ds|
    ensures Acyclic(Insert(g, from, ds).0) <==>
            forall d | d in ds[..FirstRefused(g, from, ds)] :: !Reaches(g, d, from)
  {
    AddEdgesAcyclicIff(g, from, Elems(ds[..FirstRefused(g, from, ds)]));
  }

  /** It does happen: "b" depends on "a", and "a" is asked to depend on "b" and on a vertex that is missing. */
  lemma RefusalCanLeaveCycle()
    ensures var g := map["a" := {}, "b" := {"a"}];
            && Acyclic(g) && Insert(g, "a", ["b", "c"]).1 == MissingVertex("c")
            && IsCycle(Insert(g, "a", ["b", "c"]).0, ["a", "b", "a"])
  {
    var g := map["a" := {}, "b" := {"a"}];
    assert ["a", "b"][..1] == ["a"];
    assert IsTopological(g, ["a", "b"]);
    TopologicalImpliesAcyclic(g, ["a", "b"]);
    FirstRefusedIs(g, "a", ["b", "c"], 1);
  }

  /** A cycle error changes nothing exactly when none of the requested edges was there before. */
  lemma RollbackExactIff(g: Graph, from: ID, ds: seq<ID>)
    requires Insert(g, from, ds).1 == Cycle([])
    ensures forall v | v in g && v != from :: Insert(g, from, ds).0[v] == g[v]
    ensures Insert(g, from, ds).0 == g <==> Elems(ds) !! g[from]
  {
    var h := Insert(g, from, ds).0;
    assert h[from] == g[from] - Elems(ds);
    if Elems(ds) !! g[from] {
      assert h[from] == g[from];
    } else {
      var d :| d in Elems(ds) && d in g[from];
      assert d !in h[from];
    }
  }

  /** It does happen: "a" depends on "b", "c" on "a"; asked to depend on "b" and "c", "a" loses "b". */
  lemma RollbackCanLoseEdge()
    ensures var g := map["a" := {"b"}, "b" := {}, "c" := {"a"}];
            && Acyclic(g) && Insert(g, "a", ["b", "c"]) == (map["a" := {}, "b" := {}, "c" := {"a"}], Cycle([]))
  {
    var g := map["a" := {"b"}, "b" := {}, "c" := {"a"}];
    var order := ["b", "a", "c"];
    assert order[..1] == ["b"] && order[..2] == ["b", "a"] && order[..0] == [];
    assert order[..2][1] == "a" && order[..1][0] == "b";
    assert IsTopological(g, order) by {
      assert Elems(order) == {"a", "b", "c"} by {
        assert order[0] == "b" && order[1] == "a" && order[2] == "c";
      }
    }
    TopologicalImpliesAcyclic(g, order);
    var ds := ["b", "c"];
    FirstRefusedIs(g, "a", ds, 2);
    assert Elems(ds) == {"b", "c"} by {
      assert ds[0] == "b" && ds[1] == "c";
    }
    assert IsCycle(AddEdges(g, "a", Elems(ds)), ["a", "c", "a"]);
    assert g["a"] - Elems(ds) == {};
    assert RemoveEdges(g, "a", Elems(ds)) == map["a" := {}, "b" := {}, "c" := {"a"}];
  }
}
