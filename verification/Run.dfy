/** The runtime of a reconciliation: selectors of external nodes and the loop over all nodes, in `fn.go`. */
module Run {
  import opened Trees
  import opened Graphs
  import opened Objects
  import opened World
  import opened Adequacy
  import opened Reconcile
  import opened Nodes
  import opened Walks
  import opened Meanings
  import opened Runs
  import Naming

  class Runtime {
    const order: seq<ID>
    const nodes: map<ID, Node>
    const instance: Node
    ghost var net: Net

    constructor (order: seq<ID>, nodes: map<ID, Node>, instance: Node, ghost net: Net)
      ensures this.order == order && this.nodes == nodes && this.instance == instance && this.net == net
    {
      this.order, this.nodes, this.instance, this.net := order, nodes, instance, net;
    }

    /** The objects of the runtime are those of its network, and the order puts dependencies first. */
    ghost predicate Valid(resolved: Desired)
      reads this`net, net.nodes.Values
    {
      && Wired(net) && Holding(net, resolved)
      && INSTANCE !in nodes && net.nodes == nodes[INSTANCE := instance]
      && Ordered(net.w, [INSTANCE] + order) && ValidIDs(net.w)
    }

    lemma ValidNode(resolved: Desired, k: nat)
      requires Valid(resolved) && k < |order|
      ensures WellWired(net.w) && order[k] in nodes && order[k] in net.w.specs
      ensures var node := nodes[order[k]];
              node.In(net, resolved) && node.id == order[k] && node.kind == net.w.specs[order[k]].kind && !node.kind.Instance?
    {
      hide Ordered, ValidIDs;
      OrderKnown(net.w, order);
      var id := order[k];
      assert id in order;
      assert net.nodes[id].id == id && net.nodes[id].Shows(net) && net.nodes[id] == nodes[id];
    }

    /** Observed objects may arrive at any time, and others may take their place. */
    method SetObserved(id: ID, objs: seq<Json>, ghost resolved: Desired)
      requires Valid(resolved) && id in nodes && (IsMany(nodes[id].kind) || objs != [])
      modifies this`net, nodes.Values
      ensures CacheOf(net) == old(CacheOf(net))
      ensures Valid(resolved) && net == Observing(old(net), id,
                if old(net).w.specs[id].kind.Collection? && id in resolved then Aligned(objs, resolved[id]) else objs)
    {
      hide Wired, Holding, Ordered, ValidIDs;
      InNet(resolved, id);
      net := nodes[id].SetObserved(objs, net, resolved);
      SameOrder(old(net).w, net.w);
    }

    lemma InNet(resolved: Desired, id: ID)
      requires Valid(resolved) && id in nodes
      ensures nodes[id].In(net, resolved) && nodes[id].id == id
      ensures id in net.w.specs && nodes[id].kind == net.w.specs[id].kind
    {
      hide Ordered, ValidIDs;
      assert net.nodes[id].id == id && net.nodes[id].Shows(net);
    }

    lemma SameOrder(w: World, w': World)
      requires w'.specs == w.specs
      ensures forall order :: Ordered(w', order) == Ordered(w, order)
      ensures ValidIDs(w') == ValidIDs(w)
    {
      assert IgnoreGraph(w') == IgnoreGraph(w);
      forall id ensures Managed(w', id) == Managed(w, id) {
      }
    }

    lemma RankedNet(resolved: Desired)
      requires Valid(resolved)
      ensures WellWired(net.w) && Ranked(net.w, net.rank) && forall id | id in order :: id in net.w.specs
    {
      hide Holding, ValidIDs;
      OrderKnown(net.w, order);
    }

    // ---- Selectors of external nodes. ----

    /** An external node is identified if it can be; one that stands for many is resolved, and must have a selector. */
    method SelectorFor(walk: Walk, tick: nat, node: Node, ghost before: map<string, Composed>, ghost resolved: Desired)
      returns (ok: bool, next: nat, ghost resolved': Desired)
      requires node.In(net, resolved) && !node.kind.Instance? && Picks(walk)
      modifies node`desired, net.states
      ensures node.In(net, resolved') && WellWired(net.w) && Ranked(net.w, net.rank) && node.id in net.w.specs
      ensures State(ok, before, resolved', Memory(CacheOf(net), next)) ==
              SelectNow(net.w, net.rank, walk, State(true, before, resolved, Memory(old(CacheOf(net)), tick)), node.id)
    {
      hide Node.In, WellWired, CacheOf, ResolveNow, SingleNow, Ranked, Right, ResolvedMeans, HasSelector, SharedStates;
      node.RankedKnown(net, resolved);
      ok, next, resolved' := true, tick, resolved;
      if node.kind.External? {
        var obj := node.GetDesiredIdentity(net, resolved);
        ok := !obj.Failure?;
      } else if node.kind.ExternalCollection? {
        var desired;
        desired, next := node.GetDesired(walk, tick, net, resolved);
        match desired {
          case NotYet =>
          case Failure => ok := false;
          case Done(objs) =>
            resolved' := resolved[node.id := objs];
            ok := objs == [] || HasSelector(objs[0]);
        }
      }
    }

    /** What is not there yet is skipped; any other error ends the reconciliation. */
    method ExternalRefSelectors(walk: Walk, tick: nat, ghost before: map<string, Composed>, ghost start: Desired)
      returns (ok: bool, next: nat, ghost resolved: Desired)
      requires Valid(start) && Picks(walk)
      modifies net.nodes.Values, net.states
      ensures Valid(resolved) && WellWired(net.w) && Ranked(net.w, net.rank) && forall id | id in order :: id in net.w.specs
      ensures State(ok, before, resolved, Memory(CacheOf(net), next)) ==
              SelectFrom(net.w, net.rank, walk, State(true, before, start, Memory(old(CacheOf(net)), tick)), order, 0)
    {
      hide WellWired, Wired, Holding, Ordered, ValidIDs, CacheOf, SelectNow, Ranked, Node.Shows;
      ok, next, resolved := true, tick, start;
      RankedNet(start);
      ghost var s := State(true, before, start, Memory(CacheOf(net), tick));
      for k := 0 to |order|
        invariant Valid(resolved) && WellWired(net.w) && ok
        invariant SelectFrom(net.w, net.rank, walk, State(true, before, resolved, Memory(CacheOf(net), next)), order, k) ==
                  SelectFrom(net.w, net.rank, walk, s, order, 0)
      {
        ValidNode(resolved, k);
        var node := nodes[order[k]];
        ok, next, resolved := SelectorFor(walk, next, node, before, resolved);
        if !ok {
          return false, next, resolved;
        }
      }
    }

    // ---- The loop over all nodes. ----

    /** The ready state of a resource. */
    method ReadyStateFor(walk: Walk, tick: nat, node: Node, ghost resolved: Desired) returns (state: ReadyState, next: nat)
      requires node.In(net, resolved) && !node.kind.Instance? && Picks(walk)
      modifies net.states
      ensures WellWired(net.w) && Ranked(net.w, net.rank) && node.id in net.w.specs
      ensures (state, Memory(CacheOf(net), next)) ==
              ReadyStateNow(net.w, net.rank, walk, Memory(old(CacheOf(net)), tick), resolved, node.id)
      ensures state.Unspecified? <==> node.readyWhenExprs == []
      ensures old(Right(net)) && Included(net.w, resolved, node.id) ==>
                && Right(net) && (state.Ready? ==> ObservedReady(net.w, resolved, node.id))
                && (Adequate(net.w) && ObservedReady(net.w, resolved, node.id) ==> !state.NotReady?)
    {
      hide Node.In, WellWired, CacheOf, ReadyNow, Ranked, CheckedMeans, SharedStates, Sound, Monotone, Included, ObservedReady, Adequate;
      node.RankedKnown(net, resolved);
      node.ReadyWhenKnown(net, resolved);
      if Right(net) && Included(net.w, resolved, node.id) {
        ReadyStateMeans(net.w, net.rank, walk, Memory(CacheOf(net), tick), resolved, node.id);
      }
      state, next := Unspecified, tick;
      if node.readyWhenExprs != [] {
        state := NotReady;
        var ready;
        ready, next := node.CheckReadiness(walk, tick, net, resolved);
        if ready.IsReady? {
          state := Ready;
        }
      }
    }

    /** What an object is called among the composed resources. */
    ghost function Called(node: Node, obj: Json): string {
      if node.kind.Collection? then node.id + "-" + StringAt(obj, [Field("metadata"), Field("name")]) else node.id
    }

    /** The first `n` objects under their names, the last one of each name, and beside them what was there before. */
    ghost predicate Listed(node: Node, objs: seq<Json>, n: nat, dcds: map<string, Composed>, out: map<string, Composed>)
      requires n <= |objs|
    {
      && (forall k | 0 <= k < n :: Called(node, objs[k]) in out)
      && forall name | name in out ::
           (name in dcds && out[name] == dcds[name] && forall k | 0 <= k < n :: Called(node, objs[k]) != name)
           || exists k: nat :: LastCalled(node, objs, n, k, name) && out[name].body == objs[k]
    }

    ghost predicate LastCalled(node: Node, objs: seq<Json>, n: nat, k: nat, name: string)
      requires n <= |objs|
    {
      k < n && Called(node, objs[k]) == name && forall j | k < j < n :: Called(node, objs[j]) != name
    }

    lemma NothingListed(node: Node, objs: seq<Json>, dcds: map<string, Composed>)
      ensures Listed(node, objs, 0, dcds, dcds)
    {
    }

    lemma OneMoreListed(node: Node, objs: seq<Json>, n: nat, dcds: map<string, Composed>, out: map<string, Composed>, c: Composed)
      requires n < |objs| && Listed(node, objs, n, dcds, out) && c.body == objs[n]
      ensures Listed(node, objs, n + 1, dcds, out[Called(node, objs[n]) := c])
    {
      hide Called;
      var after := out[Called(node, objs[n]) := c];
      assert LastCalled(node, objs, n + 1, n, Called(node, objs[n]));
      forall name | name in after && name != Called(node, objs[n])
        ensures (name in dcds && after[name] == dcds[name] && forall k | 0 <= k < n + 1 :: Called(node, objs[k]) != name)
                || exists k: nat :: LastCalled(node, objs, n + 1, k, name) && after[name].body == objs[k]
      {
        if k: nat :| LastCalled(node, objs, n, k, name) && out[name].body == objs[k] {
          assert LastCalled(node, objs, n + 1, k, name);
        }
      }
    }

    lemma CalledAs(node: Node, obj: Json)
      ensures Called(node, obj) == Naming.ComposedName(node.id, node.kind.Collection?, Name(obj))
    {
    }

    /** Adds the objects of one resolved node, each with its ready state. */
    method Emit(walk: Walk, tick: nat, node: Node, objs: seq<Json>, dcds: map<string, Composed>, ghost resolved: Desired)
      returns (out: map<string, Composed>, next: nat)
      requires node.In(net, resolved) && !node.kind.Instance? && Picks(walk)
      modifies net.states
      ensures WellWired(net.w) && Ranked(net.w, net.rank) && node.id in net.w.specs
      ensures State(true, out, resolved, Memory(CacheOf(net), next)) ==
              EmitFrom(net.w, net.rank, walk, State(true, dcds, resolved, Memory(old(CacheOf(net)), tick)), node.id, objs, 0)
      ensures old(Right(net)) && Included(net.w, resolved, node.id) ==>
                Right(net) && Adds(net.w, resolved, node.id, objs, dcds, out)
      ensures Listed(node, objs, |objs|, dcds, out)
    {
      hide Called, Listed, Node.In, WellWired, Name, Naming.ComposedName, CacheOf, ReadyStateNow, Ranked, Sound, Adds, Entries, Included, SharedStates;
      hide Monotone, Adequate, ReadyStateOf;
      node.RankedKnown(net, resolved);
      ghost var s := State(true, dcds, resolved, Memory(CacheOf(net), tick));
      if Right(net) && Included(net.w, resolved, node.id) {
        AddsNothing(net.w, resolved, node.id, objs, dcds);
        EmitMeans(net.w, net.rank, walk, s, node.id, objs, 0, dcds);
      }
      out, next := dcds, tick;
      NothingListed(node, objs, dcds);
      for i := 0 to |objs|
        invariant EmitFrom(net.w, net.rank, walk, State(true, out, resolved, Memory(CacheOf(net), next)), node.id, objs, i) ==
                  EmitFrom(net.w, net.rank, walk, s, node.id, objs, 0)
        invariant Listed(node, objs, i, dcds, out)
      {
        CalledAs(node, objs[i]);
        ghost var earlier := out;
        var r := objs[i];
        var resourceName := Naming.ComposedName(node.id, node.kind.Collection?, Name(r));
        var readyState;
        readyState, next := ReadyStateFor(walk, next, node, resolved);
        out := out[resourceName := Composed(r, readyState)];
        OneMoreListed(node, objs, i, dcds, earlier, Composed(r, readyState));
      }
    }

    /** One node: if it is included and can be resolved, its objects are emitted. */
    method Visit(walk: Walk, tick: nat, node: Node, dcds: map<string, Composed>, ghost resolved: Desired)
      returns (ok: bool, out: map<string, Composed>, next: nat, ghost resolved': Desired)
      requires node.In(net, resolved) && !node.kind.Instance? && Picks(walk)
      modifies node`desired, net.states
      ensures node.In(net, resolved') && WellWired(net.w) && Ranked(net.w, net.rank) && node.id in net.w.specs
      ensures State(ok, out, resolved', Memory(CacheOf(net), next)) ==
              VisitNow(net.w, net.rank, walk, State(true, dcds, resolved, Memory(old(CacheOf(net)), tick)), node.id)
    {
      hide Node.In, WellWired, CacheOf, IgnoredNow, ResolveNow, EmitFrom, Ranked, Right, IgnoringMeans, ResolvedMeans, Adds, SharedStates;
      node.RankedKnown(net, resolved);
      ok, out, next, resolved' := true, dcds, tick, resolved;
      if node.kind.External? || node.kind.ExternalCollection? {
        return;
      }
      var ignored;
      ignored, next := node.IsIgnored(walk, tick, net, resolved);
      if !ignored.NotIgnored? {
        return;
      }
      var desired;
      desired, next := node.GetDesired(walk, next, net, resolved);
      match desired {
        case NotYet =>
        case Failure => ok := false;
        case Done(objs) =>
          resolved' := resolved[node.id := objs];
          out, next := Emit(walk, next, node, objs, dcds, resolved');
      }
    }

    /**
      All nodes in order; what cannot be resolved yet is left out, an error ends the run. The result is the one that
      the walk determines, and if the values that are held at first are right, it is safe and, with right references,
      the determined one.
     */
    method BuildDesiredComposed(walk: Walk, tick: nat, dcds: map<string, Composed>, ghost start: Desired)
      returns (ok: bool, out: map<string, Composed>, ghost resolved: Desired)
      requires Valid(start) && Picks(walk)
      modifies net.nodes.Values, net.states
      ensures WellWired(net.w) && Ranked(net.w, net.rank) && forall id | id in order :: id in net.w.specs
      ensures var s := RunFrom(net.w, net.rank, walk, State(true, dcds, start, Memory(old(CacheOf(net)), tick)), order, 0);
              s.ok == ok && s.out == out && s.desired == resolved
      ensures old(Right(net)) && (forall id | Managed(net.w, id) :: id !in start) ==> Achieves(net.w, dcds, ok, resolved, out)
    {
      hide WellWired, Wired, Holding, Ordered, ValidIDs, CacheOf, VisitNow, Ranked, Node.Shows, Sound, Achieves, Managed, Monotone;
      RankedNet(start);
      ghost var s := State(true, dcds, start, Memory(CacheOf(net), tick));
      if Right(net) && forall id | Managed(net.w, id) :: id !in start {
        RunMeans(net.w, net.rank, walk, s, order);
      }
      ok, out, resolved := true, dcds, start;
      var next := tick;
      for k := 0 to |order|
        invariant Valid(resolved) && WellWired(net.w) && ok
        invariant RunFrom(net.w, net.rank, walk, State(true, out, resolved, Memory(CacheOf(net), next)), order, k) ==
                  RunFrom(net.w, net.rank, walk, s, order, 0)
      {
        ValidNode(resolved, k);
        var node := nodes[order[k]];
        ok, out, next, resolved := Visit(walk, next, node, out, resolved);
        if !ok {
          return false, out, resolved;
        }
      }
    }
  }
}
