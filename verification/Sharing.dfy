/** What sharing of expression states does. */
module Sharing {
  import opened Sets
  import opened Trees
  import opened Graphs
  import opened World
  import opened Wiring
  import opened GraphBuilder
  import Naming

  /** The expressions of all nodes and of the instance's status whose states may be shared. */
  function AllAsked(g: ResourceGraph): set<Expr> {
    (set id, e | id in g.nodes && e in Asked(g.nodes[id]) :: e) + Elems(SharedOf(g.instance.vars))
  }

  /** Expressions with the same text have the same references. */
  predicate Consistent(g: ResourceGraph) {
    forall e, f | e in AllAsked(g) && f in AllAsked(g) && e.original == f.original :: e == f
  }

  lemma {:induction false} AskedBeforeAre(g: ResourceGraph, k: nat)
    requires k <= |g.order| && Elems(g.order) <= g.nodes.Keys
    ensures forall e :: e in AskedBefore(g, k) <==> exists i :: 0 <= i < k && e in Asked(g.nodes[g.order[i]])
  {
    hide Asked;
    if k > 0 {
      AskedBeforeAre(g, k - 1);
    }
  }

  /** The states that are made are those of all expressions, the first one for every text. */
  lemma SeenInIs(g: ResourceGraph)
    requires Built(g)
    ensures forall e | e in AllAsked(g) :: e.original in SeenIn(g)
    ensures forall o | o in SeenIn(g) :: SeenIn(g)[o] in AllAsked(g) && SeenIn(g)[o].original == o
  {
    hide Asked, SharedOf;
    var all := AskedBefore(g, |g.order|) + SharedOf(g.instance.vars);
    RememberKeeps(map[], all);
    AskedBeforeAre(g, |g.order|);
    forall e ensures e in all <==> e in AllAsked(g) {
      if e in AllAsked(g) && e !in SharedOf(g.instance.vars) {
        var id :| id in g.nodes && e in Asked(g.nodes[id]);
        assert id in Elems(g.order);
        var i :| 0 <= i < |g.order| && g.order[i] == id;
      }
    }
  }

  predicate PicksItself(seen: Seen, e: Expr) {
    Pick(seen, e) == e
  }

  lemma PickAllSame(seen: Seen, es: seq<Expr>)
    ensures PickAll(seen, es) == PickAll(map[], es) <==> forall e | e in es :: PicksItself(seen, e)
  {
    if PickAll(seen, es) == PickAll(map[], es) {
      forall e | e in es ensures PicksItself(seen, e) {
        var i :| 0 <= i < |es| && es[i] == e;
        assert PickAll(seen, es)[i] == PickAll(map[], es)[i];
      }
    }
    if forall e | e in es :: PicksItself(seen, e) {
      forall i | 0 <= i < |es| ensures PickAll(seen, es)[i] == PickAll(map[], es)[i] {
        assert PicksItself(seen, es[i]);
      }
    }
  }

  lemma PickVarsSame(seen: Seen, vars: seq<Variable>)
    ensures PickVars(seen, vars) == PickVars(map[], vars) <==> forall e | e in SharedOf(vars) :: PicksItself(seen, e)
  {
    SharedOfVars(vars);
    if PickVars(seen, vars) == PickVars(map[], vars) {
      forall e | e in SharedOf(vars) ensures PicksItself(seen, e) {
        var v :| v in vars && !v.iteration && v.expr == e;
        var i :| 0 <= i < |vars| && vars[i] == v;
        assert PickVars(seen, vars)[i] == PickVars(map[], vars)[i];
      }
    }
    if forall e | e in SharedOf(vars) :: PicksItself(seen, e) {
      forall i | 0 <= i < |vars| ensures PickVars(seen, vars)[i] == PickVars(map[], vars)[i] {
        if !vars[i].iteration {
          assert vars[i] in vars;
          assert PicksItself(seen, vars[i].expr);
        }
      }
    }
  }

  lemma WiredSpecSame(g: ResourceGraph, seen: Seen, n: GraphNode)
    ensures WiredSpec(g, seen, n) == WiredSpec(g, map[], n) <==> forall e | e in Asked(n) :: PicksItself(seen, e)
  {
    hide PickAll, PickVars, PicksItself;
    PickAllSame(seen, n.includeWhen);
    PickAllSame(seen, n.readyWhen);
    PickVarsSame(seen, n.vars);
  }

  lemma SpecsSame(g: ResourceGraph, seen: Seen)
    requires INSTANCE !in g.nodes
    ensures WiredSpecs(g, seen) == WiredSpecs(g, map[]) <==> forall e | e in AllAsked(g) :: PicksItself(seen, e)
  {
    hide Asked, SharedOf, PicksItself, WiredSpec;
    var a, b := WiredSpecs(g, seen), WiredSpecs(g, map[]);
    InstanceShares(g);
    WiredSpecSame(g, seen, InstanceOf(g));
    forall id | id in g.nodes ensures a[id] == b[id] <==> forall e | e in Asked(g.nodes[id]) :: PicksItself(seen, e) {
      WiredSpecSame(g, seen, g.nodes[id]);
    }
    if a == b {
      forall e | e in AllAsked(g) ensures PicksItself(seen, e) {
        if e in SharedOf(g.instance.vars) {
          assert a[INSTANCE] == b[INSTANCE];
        } else {
          var id :| id in g.nodes && e in Asked(g.nodes[id]);
          assert a[id] == b[id];
        }
      }
    }
    if forall e | e in AllAsked(g) :: PicksItself(seen, e) {
      forall id | id in a ensures a[id] == b[id] {
        if id in g.nodes {
          forall e | e in Asked(g.nodes[id]) ensures PicksItself(seen, e) {
            assert e in AllAsked(g);
          }
        } else {
          assert forall e | e in Asked(InstanceOf(g)) :: e in AllAsked(g);
        }
      }
    }
  }

  /** Sharing is not noticed exactly when expressions with the same text have the same references. */
  lemma SharingUnnoticedIff(g: ResourceGraph)
    requires Built(g)
    ensures WiredSpecs(g, SeenIn(g)) == WiredSpecs(g, map[]) <==> Consistent(g)
  {
    hide AllAsked, SeenIn, IsTopological, WiredSpecs;
    BuiltKeys(g);
    SeenInIs(g);
    SpecsSame(g, SeenIn(g));
    if forall e | e in AllAsked(g) :: PicksItself(SeenIn(g), e) {
      forall e, f | e in AllAsked(g) && f in AllAsked(g) && e.original == f.original ensures e == f {
        assert PicksItself(SeenIn(g), e) && PicksItself(SeenIn(g), f);
      }
    }
  }

  lemma InstanceShares(g: ResourceGraph)
    ensures Asked(InstanceOf(g)) == SharedOf(g.instance.vars)
  {
  }

  /** Without noticeable sharing, the order of the nodes does not show. */
  lemma SameSpecs(g: ResourceGraph, order: seq<ID>)
    requires Built(g) && Built(g.(order := order)) && Consistent(g)
    ensures WiredSpecs(g.(order := order), SeenIn(g.(order := order))) == WiredSpecs(g, SeenIn(g))
  {
    hide SeenIn, IsTopological, Asked, WiredSpec;
    var h := g.(order := order);
    BuiltKeys(g);
    BuiltKeys(h);
    SharingUnnoticedIff(g);
    SharingUnnoticedIff(h);
    assert AllAsked(h) == AllAsked(g);
    UnsharedSpecs(g, order);
  }

  lemma UnsharedSpecs(g: ResourceGraph, order: seq<ID>)
    ensures WiredSpecs(g.(order := order), map[]) == WiredSpecs(g, map[])
  {
  }

  /** What the runtime knows once everything has been observed. */
  ghost function WorldWith(g: ResourceGraph, instance: Json, observed: map<ID, seq<Json>>, eval: Oracle, max: int): World
    requires Elems(g.order) <= g.nodes.Keys
  {
    World(WiredSpecs(g, SeenIn(g)), map[INSTANCE := [instance]] + observed, eval, max)
  }

  /** What the graph builder orders. */
  function Declarations(g: ResourceGraph, indices: map<ID, int>): map<string, Declared> {
    map id | id in g.nodes && id in indices :: Declared(id, indices[id], g.nodes[id].dependencies)
  }

  /** The order that the graph builder finds is one that a runtime can be built for. */
  lemma OrderedIsBuilt(g: ResourceGraph, indices: map<ID, int>)
    requires g.nodes.Keys <= indices.Keys && INSTANCE !in g.nodes
    requires forall id | id in g.nodes ::
               !g.nodes[id].kind.Instance? && (g.nodes[id].kind.Resource? || g.nodes[id].kind.Collection? ==> Naming.ValidID(id))
    ensures IsTopological(DeclaredGraph(Declarations(g, indices)), g.order) <==> Built(g)
  {
    hide IsTopological;
    var nodes := Declarations(g, indices);
    assert IDs(nodes, nodes.Keys) == g.nodes.Keys by {
      forall id | id in g.nodes ensures id in IDs(nodes, nodes.Keys) {
        assert nodes[id].id == id;
      }
    }
    forall id | id in g.nodes ensures DeclaredGraph(nodes)[id] == DependencyGraph(g)[id] {
      assert nodes[id].id == id;
    }
    assert DeclaredGraph(nodes) == DependencyGraph(g);
  }
}
