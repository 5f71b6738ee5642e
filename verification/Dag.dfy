/** The mutable dependency graph of `kro/graph/dag/dag.go`. */
module Dag {
  import opened Sets
  import opened Graphs
  import opened Orders
  import opened Insertion
  import Text

  class Vertex {
    const id: ID
    const order: int
    var dependsOn: set<ID>

    constructor (id: ID, order: int)
      ensures this.id == id && this.order == order && dependsOn == {}
    {
      this.id, this.order, dependsOn := id, order, {};
    }
  }

  /** The variables that the recursive closure of `hasCycle` shares between its activations. */
  class CycleSearch {
    var visited: set<ID>
    var recStack: set<ID>
    var cyclePath: seq<ID>
    ghost var finished: seq<ID>  // in the order in which activations returned false

    constructor ()
      ensures visited == recStack == {} && cyclePath == finished == []
      ensures forall g: Graph :: Inv(g)
    {
      visited, recStack, cyclePath, finished := {}, {}, [], [];
    }

    /** Open vertices form a path; finished ones depend on earlier finished ones only. */
    ghost predicate Inv(g: Graph)
      reads this
    {
      && IsPath(g, cyclePath) && Distinct(cyclePath) && recStack == Elems(cyclePath)
      && Distinct(finished) && DepsFirst(g, finished)
      && visited == Elems(finished) + recStack && Elems(finished) !! recStack
      && visited <= g.Keys
    }
  
    /** An activation begins: `node` is visited and extends the open path. */
    method Enter(ghost g: Graph, node: ID)
      requires Inv(g) && node in g && node !in visited
      requires cyclePath == [] || Edge(g, cyclePath[|cyclePath| - 1], node)
      modifies this
      ensures Inv(g) && cyclePath == old(cyclePath) + [node] && visited == old(visited) + {node}
    {
      visited := visited + {node};
      recStack := recStack + {node};
      cyclePath := cyclePath + [node];
    }

    /** An edge leads back into the open path. */
    method Close(ghost g: Graph, repeated: ID)
      requires Inv(g) && cyclePath != [] && Edge(g, cyclePath[|cyclePath| - 1], repeated) && repeated in recStack
      modifies this
      ensures Closing(g, cyclePath)
    {
      cyclePath := cyclePath + [repeated];
    }

    /** An activation ends without a cycle: the last open vertex is finished. */
    method Leave(ghost g: Graph, node: ID)
      requires Inv(g) && cyclePath != [] && cyclePath[|cyclePath| - 1] == node
      requires node in g && g[node] <= Elems(finished)
      modifies this
      ensures Inv(g) && cyclePath == old(cyclePath)[..|old(cyclePath)| - 1] && visited == old(visited)
      ensures finished == old(finished) + [node]
    {
      assert node in Elems(cyclePath);
      assert cyclePath == cyclePath[..|cyclePath| - 1] + [node];
      DistinctAppend(finished, node);
      DepsFirstAppend(g, finished, node);
      recStack := recStack - {node};
      cyclePath := cyclePath[..|cyclePath| - 1];
      finished := finished + [node];
    }
  }

  class Dag {
    var vertices: map<ID, Vertex>

    ghost predicate Valid()
      reads this, vertices.Values
    {
      forall k | k in vertices :: vertices[k].id == k && vertices[k].dependsOn <= vertices.Keys
    }

    ghost function Deps(): (g: Graph)
      reads this, vertices.Values
      ensures Valid() ==> Closed(g)
    {
      map k | k in vertices :: vertices[k].dependsOn
    }

    ghost function Order(): (o: map<ID, int>)
      reads this, vertices.Values
      ensures o.Keys == Deps().Keys
    {
      map k | k in vertices :: vertices[k].order
    }

    constructor ()
      ensures Valid() && Deps() == map[] && fresh(vertices.Values)
    {
      vertices := map[];
    }

    method AddVertex(id: ID, order: int) returns (added: bool)
      requires Valid()
      modifies this
      ensures Valid()
      ensures added == (id !in old(Deps()))
      ensures Deps() == if added then old(Deps())[id := {}] else old(Deps())
      ensures Order() == if added then old(Order())[id := order] else old(Order())
      ensures fresh(vertices.Values - old(vertices.Values))
    {
      if id in vertices {
        return false;
      }
      var v := new Vertex(id, order);
      vertices := vertices[id := v];
      return true;
    }

    /** Depth-first search below `node`; true once an edge closes a cycle with the open path. */
    method Dfs(search: CycleSearch, node: ID) returns (found: bool)
      requires Valid() && search.Inv(Deps())
      requires node in vertices && node !in search.visited
      requires search.cyclePath == [] || Edge(Deps(), search.cyclePath[|search.cyclePath| - 1], node)
      modifies search
      ensures found ==> Closing(Deps(), search.cyclePath)
      ensures !found ==> search.Inv(Deps()) && search.cyclePath == old(search.cyclePath)
      ensures !found ==> old(search.visited) + {node} <= search.visited
      ensures !found ==> Elems(old(search.finished)) + {node} <= Elems(search.finished)
      decreases vertices.Keys - search.visited
    {
      hide IsPath, Distinct, DepsFirst, Closed;
      ghost var g := Deps();
      search.Enter(g, node);
      ghost var path, entered := search.cyclePath, search.visited;

      var dependencies := vertices[node].dependsOn;
      while dependencies != {}
        invariant dependencies <= g[node] <= Elems(search.finished) + dependencies
        invariant search.Inv(g) && search.cyclePath == path && entered <= search.visited
        decreases dependencies
      {
        var dependency :| dependency in dependencies;
        dependencies := dependencies - {dependency};
        assert Edge(g, node, dependency);
        if dependency !in search.visited {
          var inner := Dfs(search, dependency);
          if inner {
            return true;
          }
        } else if dependency in search.recStack {
          search.Close(g, dependency);
          return true;
        }
      }

      search.Leave(g, node);
      return false;
    }

    /** Whether some chain of dependencies leads back to where it starts, and one that does. */
    method HasCycle() returns (found: bool, cycle: seq<ID>, ghost order: seq<ID>)
      requires Valid()
      ensures found == !Acyclic(Deps())
      ensures found ==> IsSimpleCycle(Deps(), cycle)
      ensures !found ==> cycle == [] && IsTopological(Deps(), order)
    {
      hide IsPath, DepsFirst, Closed, Closing, IsSimpleCycle;
      ghost var g := Deps();
      var search := new CycleSearch();
      var nodes := vertices.Keys;
      while nodes != {}
        invariant nodes <= vertices.Keys
        invariant fresh(search) && search.Inv(g) && search.cyclePath == []
        invariant vertices.Keys - nodes <= search.visited
        decreases nodes
      {
        var node :| node in nodes;
        nodes := nodes - {node};
        if node !in search.visited {
          search.cyclePath := [];
          var inner := Dfs(search, node);
          if inner {
            cycle := TrimToRepeat(g, search.cyclePath);
            return true, cycle, [];
          }
        }
      }
      order := search.finished;
      assert IsTopological(g, order);
      TopologicalImpliesAcyclic(g, order);
      return false, [], order;
    }

    /** The edge from `from` to `dependency` exists afterwards if `present`, otherwise it does not. */
    method SetEdge(from: ID, dependency: ID, present: bool)
      requires Valid() && from in vertices && (present ==> dependency in vertices)
      modifies vertices[from]
      ensures Valid() && Order() == old(Order())
      ensures Deps() == old(Deps())[from := if present then old(Deps())[from] + {dependency}
                                                       else old(Deps())[from] - {dependency}]
    {
      var fromNode := vertices[from];
      fromNode.dependsOn := if present then fromNode.dependsOn + {dependency} else fromNode.dependsOn - {dependency};
    }

    /** Makes `from` depend on all of `dependencies`, unless that is impossible. */
    method AddDependencies(from: ID, dependencies: seq<ID>) returns (outcome: Outcome)
      requires Valid()
      modifies vertices.Values
      ensures Valid() && Order() == old(Order())
      ensures (Deps(), outcome.Kind()) == Insert(old(Deps()), from, dependencies)
      ensures outcome.SelfReference? <==>
                from in old(Deps()) && exists k :: 0 <= k < |dependencies| && dependencies[k] == from && forall j | 0 <= j < k :: dependencies[j] in old(Deps())
      ensures outcome.MissingVertex? <==>
                from !in old(Deps()) || exists k :: 0 <= k < |dependencies| && dependencies[k] !in old(Deps()) && from !in dependencies[..k]
      ensures outcome.Added? ==> Acyclic(Deps()) && Deps() == old(Deps())[from := old(Deps())[from] + Elems(dependencies)]
      ensures outcome.Cycle? ==>
                from in old(Deps()) && IsSimpleCycle(AddEdges(old(Deps()), from, Elems(dependencies)), outcome.path)
    {
      hide Valid, Acyclic, IsSimpleCycle, IsTopological, Closed;
      if from !in vertices {
        return MissingVertex(from);
      }
      ghost var g0 := Deps();
      AddNoEdges(g0, from, dependencies);
      for i := 0 to |dependencies|
        invariant Valid() && Order() == old(Order())
        invariant forall j | 0 <= j < i :: !Refused(g0, from, dependencies[j])
        invariant Deps() == AddEdges(g0, from, Elems(dependencies[..i]))
      {
        var dependency := dependencies[i];
        if dependency !in vertices {
          FirstRefusedIs(g0, from, dependencies, i);
          return MissingVertex(dependency);
        }
        if from == dependency {
          FirstRefusedIs(g0, from, dependencies, i);
          return SelfReference;
        }
        SetEdge(from, dependency, true);
        AddOneEdge(g0, from, dependencies, i);
      }
      assert dependencies[..|dependencies|] == dependencies;
      FirstRefusedIs(g0, from, dependencies, |dependencies|);
      var hasCycle, cycle, _ := HasCycle();
      if hasCycle {
        Rollback(g0, from, dependencies);
        return Cycle(cycle);
      }
      return Added;
    }

    /** Takes all requested edges out again, those that were there before the request as well. */
    method Rollback(ghost g0: Graph, from: ID, dependencies: seq<ID>)
      requires Valid() && from in g0 && Deps() == AddEdges(g0, from, Elems(dependencies))
      modifies vertices.Values
      ensures Valid() && Order() == old(Order())
      ensures Deps() == g0[from := g0[from] - Elems(dependencies)]
    {
      hide Valid, Closed;
      RemoveNoEdges(g0, from, dependencies);
      for i := 0 to |dependencies|
        invariant Valid() && Order() == old(Order())
        invariant Deps() == RemoveEdges(AddEdges(g0, from, Elems(dependencies)), from, Elems(dependencies[..i]))
      {
        SetEdge(from, dependencies[i], false);
        RemoveOneEdge(AddEdges(g0, from, Elems(dependencies)), from, dependencies, i);
      }
      assert dependencies[..|dependencies|] == dependencies;
      assert g0[from] + Elems(dependencies) - Elems(dependencies) == g0[from] - Elems(dependencies);
    }

    /** Counts of unplaced dependencies, dependents by dependency, and the vertices that wait for nothing. */
    method Prepare() returns (remaining: map<ID, nat>, dependents: map<ID, set<ID>>, ready: set<Item>)
      requires Valid()
      ensures remaining.Keys == Deps().Keys && forall v | v in remaining :: remaining[v] == Unplaced(Deps(), v, {})
      ensures forall d :: Waiting(dependents, d) == Dependents(Deps(), d)
      ensures ready == Items(Order(), Available(Deps(), {}))
    {
      ghost var g, ord := Deps(), Order();
      hide Unplaced;
      remaining, dependents, ready := map[], map[], {};
      var ids := vertices.Keys;
      while ids != {}
        invariant ids <= vertices.Keys
        invariant remaining.Keys == g.Keys - ids && forall v | v in remaining :: remaining[v] == Unplaced(g, v, {})
        invariant forall d, v :: v in Waiting(dependents, d) <==> v in remaining && d in g[v]
        invariant ready == Items(ord, Available(g, {}) - ids)
        decreases ids
      {
        var id :| id in ids;
        ids := ids - {id};
        var vertex := vertices[id];
        UnplacedInitially(g, id);
        remaining := remaining[id := |vertex.dependsOn|];
        if |vertex.dependsOn| == 0 {
          ready := ready + {Item(id, vertex.order)};
        }
        dependents := AddDependent(id, vertex.dependsOn, dependents);
      }
    }

    /** `id` waits for all of `dependencies`. */
    method AddDependent(id: ID, dependencies: set<ID>, before: map<ID, set<ID>>) returns (dependents: map<ID, set<ID>>)
      ensures forall d, v :: v in Waiting(dependents, d) <==> v in Waiting(before, d) || (v == id && d in dependencies)
    {
      dependents := before;
      var rest := dependencies;
      while rest != {}
        invariant rest <= dependencies
        invariant forall d, v :: v in Waiting(dependents, d) <==> v in Waiting(before, d) || (v == id && d in dependencies - rest)
        decreases rest
      {
        var dependency :| dependency in rest;
        rest := rest - {dependency};
        ghost var earlier := dependents;
        dependents := dependents[dependency := Waiting(dependents, dependency) + {id}];
        assert Waiting(dependents, dependency) == Waiting(earlier, dependency) + {id};
        assert forall d | d != dependency :: Waiting(dependents, d) == Waiting(earlier, d);
      }
    }

    /** `placed` comes after `before`: one dependency less for each vertex that waits for it. */
    method Release(ghost g: Graph, ghost ord: map<ID, int>, ghost before: set<ID>, placed: ID, waiting: set<ID>,
                   counts: map<ID, nat>, queue: set<Item>)
      returns (remaining: map<ID, nat>, ready: set<Item>)
      requires Valid() && g == Deps() && ord == Order()
      requires waiting == Dependents(g, placed) && placed !in before
      requires counts.Keys == g.Keys && forall v | v in g :: counts[v] == Unplaced(g, v, before)
      requires queue <= Items(ord, Available(g, before))
      ensures remaining.Keys == g.Keys && forall v | v in g :: remaining[v] == Unplaced(g, v, before + {placed})
      ensures ready == queue + Items(ord, Released(g, before + {placed}, waiting))
    {
      hide Valid, Unplaced, Closed, Available;
      ghost var after := before + {placed};
      UnplacedOther(g, before, placed);
      remaining, ready := counts, queue;
      var rest := waiting;
      while rest != {}
        invariant rest <= waiting && remaining.Keys == g.Keys
        invariant forall v | v in g && v !in waiting - rest :: remaining[v] == Unplaced(g, v, before)
        invariant forall v | v in waiting - rest :: remaining[v] == Unplaced(g, v, after)
        invariant ready == queue + Items(ord, Released(g, after, waiting - rest))
        decreases rest
      {
        var dependent :| dependent in rest;
        OneDependencyLess(g, before, placed, dependent);
        rest := rest - {dependent};
        remaining := remaining[dependent := remaining[dependent] - 1];
        if remaining[dependent] == 0 {
          assert Item(dependent, vertices[dependent].order) !in ready;
          ready := ready + {Item(dependent, vertices[dependent].order)};
        }
      }
    }

    /** Places vertices, the least (order, id) among the ready ones first, until none is ready. */
    method PlaceReady() returns (order: seq<ID>)
      requires Valid()
      ensures Greedy(Deps(), Order(), order) && Foremost(Deps(), Order(), order) && Available(Deps(), Elems(order)) == {}
    {
      hide Valid, Unplaced, Available, Greedy, DownClosed, Released, Closed;
      ghost var g, ord := Deps(), Order();
      var remaining, dependents, ready := Prepare();
      order := [];
      assert Elems(order) == {};
      GreedyStart(g, ord);
      while ready != {}
        invariant Greedy(g, ord, order)
        invariant remaining.Keys == g.Keys && forall v | v in g :: remaining[v] == Unplaced(g, v, Elems(order))
        invariant ready == Items(ord, Available(g, Elems(order)))
        decreases g.Keys - Elems(order)
      {
        var current: Item;
        current, ready := PopLeast(ready);
        ghost var before := order;
        TakeLeast(g, ord, before, current);
        order := order + [current.id];
        remaining, ready := Release(g, ord, Elems(before), current.id, Waiting(dependents, current.id), remaining, ready);
        AvailableAfter(g, Elems(before), current.id);
      }
      AvailableVertices(g, Elems(order));
      ItemsEmpty(ord, Available(g, Elems(order)));
      GreedyIsForemost(g, ord, order);
    }

    /** Kahn's algorithm; a cycle is looked for only if some vertex could not be placed. */
    method TopologicalSort() returns (ok: bool, order: seq<ID>, cycle: seq<ID>)
      requires Valid()
      ensures ok == Acyclic(Deps())
      ensures ok ==> IsTopological(Deps(), order) && Greedy(Deps(), Order(), order)
      ensures ok ==> forall k, v | 0 <= k < |order| && v in Deps() && v !in order[..k] && (forall d | d in Deps()[v] :: d in order[..k]) ::
                v == order[k] ||
                (order[k] in Order() && (Order()[order[k]] < Order()[v] || (Order()[order[k]] == Order()[v] && Text.Precedes(order[k], v))))
      ensures !ok ==> IsSimpleCycle(Deps(), cycle)
    {
      hide Valid, Available, Greedy, IsTopological, IsSimpleCycle, Acyclic, Closed;
      ghost var g, ord := Deps(), Order();
      order := PlaceReady();
      CompleteOrder(g, ord, order);
      assert vertices.Keys == g.Keys;
      if |order| == |vertices| {
        TopologicalImpliesAcyclic(g, order);
        GreedyIsForemost(g, ord, order);
        return true, order, [];
      }
      var hasCycle, path, schedule := HasCycle();
      if !hasCycle {
        NothingAvailable(g, Elems(order), schedule);
        assert false;
      }
      return false, [], path;
    }
  }

  function Waiting(dependents: map<ID, set<ID>>, d: ID): set<ID> {
    if d in dependents then dependents[d] else {}
  }

  /** The part of the open path from the first occurrence of its last vertex on. */
  method TrimToRepeat(ghost g: Graph, path: seq<ID>) returns (cycle: seq<ID>)
    requires Closing(g, path)
    ensures IsSimpleCycle(g, cycle)
  {
    var last := path[|path| - 1];
    var start := 0;
    while path[start] != last
      invariant 0 <= start < |path| - 1
      invariant exists i :: start <= i < |path| - 1 && path[i] == last
      decreases |path| - start
    {
      start := start + 1;
    }
    cycle := path[start..];
    SubPath(g, path, start, |path|);
  }
}
