/** The dependency graph of a resource graph and its order: `kro/graph/builder.go`. */
module GraphBuilder {
  import opened Sets
  import opened Graphs
  import opened Orders
  import opened Insertion
  import opened Dag

  /** A node with the dependencies that were found in its expressions. */
  datatype Declared = Declared(id: ID, index: int, dependencies: seq<ID>)

  function IDs(nodes: map<string, Declared>, keys: set<string>): set<ID> {
    set k | k in nodes && k in keys :: nodes[k].id
  }

  predicate UniqueIDs(nodes: map<string, Declared>, keys: set<string>) {
    forall k, l | k in nodes && l in nodes && k in keys && l in keys && nodes[k].id == nodes[l].id :: k == l
  }

  function DependenciesOf(nodes: map<string, Declared>, keys: set<string>, id: ID): set<ID> {
    set k, d | k in nodes && k in keys && nodes[k].id == id && d in nodes[k].dependencies :: d
  }

  /** All nodes, with the dependencies of those in `keys` only. */
  function PartialGraph(nodes: map<string, Declared>, keys: set<string>): Graph {
    map id | id in IDs(nodes, nodes.Keys) :: DependenciesOf(nodes, keys, id)
  }

  function DeclaredGraph(nodes: map<string, Declared>): Graph {
    PartialGraph(nodes, nodes.Keys)
  }

  predicate Indexed(nodes: map<string, Declared>, keys: set<string>, order: map<ID, int>) {
    order.Keys == IDs(nodes, keys) && forall k | k in nodes && k in keys :: order[nodes[k].id] == nodes[k].index
  }

  predicate OthersOnly(nodes: map<string, Declared>, k: string)
    requires k in nodes
  {
    nodes[k].id !in nodes[k].dependencies && Elems(nodes[k].dependencies) <= IDs(nodes, nodes.Keys)
  }

  /** All dependencies are other nodes, and no chain of them leads back to where it starts. */
  ghost predicate Orderable(nodes: map<string, Declared>) {
    && UniqueIDs(nodes, nodes.Keys) && (forall k | k in nodes :: OthersOnly(nodes, k))
    && Acyclic(DeclaredGraph(nodes))
  }

  /** One vertex for every node; none may have the id of another. */
  method AddVertices(nodes: map<string, Declared>) returns (ok: bool, dag: Dag)
    ensures ok == UniqueIDs(nodes, nodes.Keys)
    ensures ok ==> dag.Valid() && fresh(dag) && fresh(dag.vertices.Values)
    ensures ok ==> dag.Deps() == PartialGraph(nodes, {}) && Indexed(nodes, nodes.Keys, dag.Order())
  {
    hide Indexed, UniqueIDs, Closed;
    dag := new Dag();
    ghost var done: set<string> := {};
    var todo := nodes.Keys;
    NoneIndexed(nodes);
    assert dag.Order() == map[];
    while todo != {}
      invariant todo <= nodes.Keys && done == nodes.Keys - todo
      invariant fresh(dag) && dag.Valid() && fresh(dag.vertices.Values)
      invariant dag.Deps() == Bare(IDs(nodes, done)) && Indexed(nodes, done, dag.Order()) && UniqueIDs(nodes, done)
      decreases todo
    {
      var k :| k in todo;
      todo := todo - {k};
      OneMoreIndexed(nodes, done, k, dag.Order());
      var added := dag.AddVertex(nodes[k].id, nodes[k].index);
      if !added {
        return false, dag;
      }
      done := done + {k};
    }
    assert done == nodes.Keys;
    forall id | id in IDs(nodes, nodes.Keys) ensures PartialGraph(nodes, {})[id] == {} {
    }
    assert PartialGraph(nodes, {}) == Bare(IDs(nodes, nodes.Keys));
    return true, dag;
  }

  function Bare(ids: set<ID>): Graph {
    map id | id in ids :: {}
  }

  lemma NoneIndexed(nodes: map<string, Declared>)
    ensures Indexed(nodes, {}, map[]) && UniqueIDs(nodes, {}) && Bare(IDs(nodes, {})) == map[]
  {
  }

  lemma OneMoreIndexed(nodes: map<string, Declared>, done: set<string>, k: string, order: map<ID, int>)
    requires k in nodes && k !in done && Indexed(nodes, done, order) && UniqueIDs(nodes, done)
    ensures var id := nodes[k].id;
            if id in IDs(nodes, done) then !UniqueIDs(nodes, nodes.Keys) || !(done <= nodes.Keys)
            else
              && Indexed(nodes, done + {k}, order[id := nodes[k].index]) && UniqueIDs(nodes, done + {k})
              && Bare(IDs(nodes, done))[id := {}] == Bare(IDs(nodes, done + {k}))
  {
    assert IDs(nodes, done + {k}) == IDs(nodes, done) + {nodes[k].id};
  }

  /** Succeeds exactly if the nodes can be ordered, in whatever order they are added. */
  method BuildDependencyGraph(nodes: map<string, Declared>) returns (ok: bool, dag: Dag)
    ensures ok <==> Orderable(nodes)
    ensures ok ==> dag.Valid() && dag.Deps() == DeclaredGraph(nodes) && Indexed(nodes, nodes.Keys, dag.Order())
  {
    hide Indexed, UniqueIDs, Closed, PartialGraph, Acyclic, OthersOnly, Insert;
    ok, dag := AddVertices(nodes);
    if !ok {
      return;
    }
    NoEdges(nodes);
    ghost var done: set<string> := {};
    var todo := nodes.Keys;
    while todo != {}
      invariant todo <= nodes.Keys && done == nodes.Keys - todo
      invariant dag.Valid() && fresh(dag) && fresh(dag.vertices.Values)
      invariant dag.Deps() == PartialGraph(nodes, done) && Indexed(nodes, nodes.Keys, dag.Order())
      invariant Acyclic(PartialGraph(nodes, done)) && forall k | k in done :: OthersOnly(nodes, k)
      decreases todo
    {
      var k :| k in todo;
      InsertedOrNot(nodes, done, k);
      var outcome := dag.AddDependencies(nodes[k].id, nodes[k].dependencies);
      todo, done := todo - {k}, done + {k};
      if !outcome.Added? {
        return false, dag;
      }
    }
    assert done == nodes.Keys;
  }

  lemma NoEdges(nodes: map<string, Declared>)
    ensures Acyclic(PartialGraph(nodes, {}))
  {
    forall p ensures !IsCycle(PartialGraph(nodes, {}), p) {
      assert |p| >= 2 ==> !Edge(PartialGraph(nodes, {}), p[0], p[1]);
    }
  }

  lemma InsertedOrNot(nodes: map<string, Declared>, done: set<string>, k: string)
    requires UniqueIDs(nodes, nodes.Keys) && k in nodes && k !in done && done <= nodes.Keys
    ensures var (g, outcome) := Insert(PartialGraph(nodes, done), nodes[k].id, nodes[k].dependencies);
            if outcome.Added? then g == PartialGraph(nodes, done + {k}) && Acyclic(g) && OthersOnly(nodes, k)
            else !Orderable(nodes)
  {
    hide PartialGraph, Acyclic, UniqueIDs;
    var g, id, ds := PartialGraph(nodes, done), nodes[k].id, nodes[k].dependencies;
    AcceptedAreVertices(g, id, ds);
    PartialGrows(nodes, done, k);
    if FirstRefused(g, id, ds) == |ds| && !Acyclic(PartialGraph(nodes, done + {k})) && Acyclic(DeclaredGraph(nodes)) {
      SubgraphAcyclic(PartialGraph(nodes, done + {k}), DeclaredGraph(nodes));
    }
  }

  lemma PartialGrows(nodes: map<string, Declared>, done: set<string>, k: string)
    requires UniqueIDs(nodes, nodes.Keys) && k in nodes && k !in done && done <= nodes.Keys
    ensures PartialGraph(nodes, done).Keys == IDs(nodes, nodes.Keys) && nodes[k].id in PartialGraph(nodes, done)
    ensures AddEdges(PartialGraph(nodes, done), nodes[k].id, Elems(nodes[k].dependencies)) == PartialGraph(nodes, done + {k})
    ensures Subgraph(PartialGraph(nodes, done + {k}), DeclaredGraph(nodes))
  {
    var g, more, id, ds := PartialGraph(nodes, done), PartialGraph(nodes, done + {k}), nodes[k].id, nodes[k].dependencies;
    forall v | v in g ensures more[v] == if v == id then g[v] + Elems(ds) else g[v] {
    }
    assert AddEdges(g, id, Elems(ds)) == more;
  }

  /** Builds the graph and orders it; the order depends on what is declared only. */
  method OrderNodes(nodes: map<string, Declared>) returns (ok: bool, order: seq<ID>, ghost indices: map<ID, int>)
    ensures ok <==> Orderable(nodes)
    ensures ok ==> Indexed(nodes, nodes.Keys, indices) && indices.Keys == DeclaredGraph(nodes).Keys
    ensures ok ==> IsTopological(DeclaredGraph(nodes), order) && Greedy(DeclaredGraph(nodes), indices, order)
    ensures ok ==> Foremost(DeclaredGraph(nodes), indices, order)
  {
    order, indices := [], map[];
    var dag;
    ok, dag := BuildDependencyGraph(nodes);
    if ok {
      var cycle;
      indices := dag.Order();
      ok, order, cycle := dag.TopologicalSort();
      if ok {
        GreedyIsForemost(DeclaredGraph(nodes), indices, order);
      }
    }
  }

  /** Whatever the order in which the nodes are walked, they are ordered in one way. */
  lemma OrderDetermined(nodes: map<string, Declared>, i: map<ID, int>, a: seq<ID>, j: map<ID, int>, b: seq<ID>)
    requires Orderable(nodes) && Indexed(nodes, nodes.Keys, i) && Indexed(nodes, nodes.Keys, j)
    requires i.Keys == DeclaredGraph(nodes).Keys
    requires IsTopological(DeclaredGraph(nodes), a) && Greedy(DeclaredGraph(nodes), i, a)
    requires IsTopological(DeclaredGraph(nodes), b) && Greedy(DeclaredGraph(nodes), j, b)
    ensures a == b
  {
    hide IsTopological, Greedy;
    forall id | id in i ensures id in j && i[id] == j[id] {
      var k :| k in nodes && nodes[k].id == id;
    }
    assert i == j;
    GreedyUnique(DeclaredGraph(nodes), i, a, b);
  }
}
