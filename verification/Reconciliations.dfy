/** Whole reconciliations: `RunFunction` in `fn.go`, from the observed resources to the desired ones. */
module Reconciliations {
  import opened Sets
  import opened Trees
  import opened Graphs
  import opened Objects
  import opened World
  import opened Adequacy
  import opened Reconcile
  import opened Nodes
  import opened Faults
  import opened Walks
  import opened Meanings
  import opened Runs
  import opened Selectors
  import opened Run
  import opened Wiring
  import opened Sharing
  import Naming

  /** The composite resource, what external references have found, and the observed composed resources by name. */
  datatype Request = Request(instance: Json, external: map<ID, seq<Json>>, composed: map<string, Json>)

  /** What external references found is listed for external nodes. */
  predicate Provides(g: ResourceGraph, external: map<ID, seq<Json>>) {
    forall id | id in external :: id in g.nodes && (g.nodes[id].kind.External? || g.nodes[id].kind.ExternalCollection?)
  }

  function NotEmpty(external: map<ID, seq<Json>>): map<ID, seq<Json>> {
    map id | id in external && external[id] != [] :: external[id]
  }

  function Collections(g: ResourceGraph): set<ID> {
    set id | id in g.nodes && IsMany(g.nodes[id].kind)
  }

  /** A labelled resource named after a node that stands for many, external or not, is listed for this node. */
  lemma LabelledIsListed(g: ResourceGraph, composed: map<string, Json>, groups: map<ID, seq<Json>>, members: map<ID, seq<string>>, c: ID, rest: string)
    requires Naming.Grouped(composed, g.nodes.Keys, Collections(g), groups, members) && forall id | id in g.nodes :: Naming.ValidID(id)
    requires c in g.nodes && (g.nodes[c].kind.Collection? || g.nodes[c].kind.ExternalCollection?)
    requires c + "-" + rest in composed && HasIndex(composed[c + "-" + rest])
    ensures forall owner :: Naming.Member(members, c + "-" + rest, owner) <==> owner == c
  {
    hide Naming.BelongsTo, Naming.ValidID, HasIndex;
    forall owner ensures Naming.BelongsTo(c + "-" + rest, true, g.nodes.Keys, Collections(g), owner) <==> owner == c {
      Naming.EmittedBelongsToEmitter(c, true, rest, g.nodes.Keys, Collections(g), owner);
    }
  }

  /** The groups are those of the observed composed resources, listed in some order. */
  ghost predicate Groups(g: ResourceGraph, req: Request, groups: map<ID, seq<Json>>) {
    exists members :: Naming.Grouped(req.composed, g.nodes.Keys, Collections(g), groups, members)
  }

  /** Composed resources are recorded after external ones and take their place. */
  ghost function WorldFor(g: ResourceGraph, req: Request, groups: map<ID, seq<Json>>, eval: Oracle, max: int): World
    requires Elems(g.order) <= g.nodes.Keys
  {
    WorldWith(g, req.instance, NotEmpty(req.external) + groups, eval, max)
  }

  // ---- Recording what is observed. ----

  ghost predicate Observable(g: ResourceGraph, observed: map<ID, seq<Json>>) {
    forall id | id in observed :: id in g.nodes && observed[id] != []
  }

  function Without(observed: map<ID, seq<Json>>, todo: set<ID>): map<ID, seq<Json>> {
    map id | id in observed && id !in todo :: observed[id]
  }

  lemma OneLessTodo(before: map<ID, seq<Json>>, observed: map<ID, seq<Json>>, todo: set<ID>, id: ID)
    requires id in observed && id in todo
    ensures (before + Without(observed, todo))[id := observed[id]] == before + Without(observed, todo - {id})
  {
  }

  /** In any order; what has been evaluated stays as it is. */
  method ObserveAll(rt: Runtime, observed: map<ID, seq<Json>>, ghost resolved: Desired)
    requires rt.Valid(resolved) && NothingManaged(rt.net.w, resolved)
    requires forall id | id in observed :: id in rt.nodes && observed[id] != []
    modifies rt`net, rt.nodes.Values
    ensures rt.Valid(resolved) && CacheOf(rt.net) == old(CacheOf(rt.net))
    ensures rt.net == old(rt.net).(w := old(rt.net).w.(observed := old(rt.net.w.observed) + observed))
  {
    hide Runtime.Valid, Without, Wired, Holding, Node.In, Summary, Managed, NothingManaged;
    ghost var net := rt.net;
    var todo := observed.Keys;
    assert Without(observed, todo) == map[] by {
      NothingTodo(observed);
    }
    while todo != {}
      invariant todo <= observed.Keys && rt.Valid(resolved) && CacheOf(rt.net) == old(CacheOf(rt.net))
      invariant rt.net == net.(w := net.w.(observed := net.w.observed + Without(observed, todo)))
      decreases todo
    {
      var id :| id in todo;
      OneLessTodo(net.w.observed, observed, todo, id);
      rt.InNet(resolved, id);
      if net.w.specs[id].kind.Collection? {
        UnmanagedIn(net.w, resolved, id);
      }
      rt.SetObserved(id, observed[id], resolved);
      todo := todo - {id};
    }
    NothingTodo(observed);
  }

  lemma UnmanagedIn(w: World, resolved: Desired, id: ID)
    requires NothingManaged(w, resolved) && id in w.specs && w.specs[id].kind.Collection?
    ensures id !in resolved
  {
    assert Managed(w, id);
  }

  lemma NothingTodo(observed: map<ID, seq<Json>>)
    ensures Without(observed, observed.Keys) == map[] && Without(observed, {}) == observed
  {
  }

  lemma GroupsObservable(g: ResourceGraph, req: Request, groups: map<ID, seq<Json>>)
    requires Groups(g, req, groups) && Provides(g, req.external)
    ensures Observable(g, groups) && Observable(g, NotEmpty(req.external)) && Observable(g, NotEmpty(req.external) + groups)
  {
    var members :| Naming.Grouped(req.composed, g.nodes.Keys, Collections(g), groups, members);
    Naming.GroupsPermute(req.composed, g.nodes.Keys, Collections(g), groups, members, groups, members);
  }

  lemma WorldOver(g: ResourceGraph, req: Request, groups: map<ID, seq<Json>>, eval: Oracle, max: int)
    requires Elems(g.order) <= g.nodes.Keys
    ensures var w := WorldOf(g, req.instance, eval, max);
            WorldFor(g, req, groups, eval, max) == w.(observed := w.observed + (NotEmpty(req.external) + groups))
  {
    hide WiredSpecs, SeenIn;
  }

  lemma AddedTwice(a: map<ID, seq<Json>>, b: map<ID, seq<Json>>, c: map<ID, seq<Json>>)
    ensures a + b + c == a + (b + c)
  {
  }

  lemma SameIgnoreGraph(w: World, v: World)
    requires w.specs == v.specs
    ensures IgnoreGraph(w) == IgnoreGraph(v)
  {
  }

  lemma WellWiredGrows(w: World, more: map<ID, seq<Json>>)
    requires WellWired(w) && more.Keys <= w.specs.Keys && forall id | id in more :: more[id] != []
    ensures WellWired(w.(observed := w.observed + more))
  {
  }

  lemma SameSpecsOrdered(w: World, v: World)
    requires w.specs == v.specs
    ensures forall order :: Ordered(v, order) == Ordered(w, order)
    ensures ValidIDs(v) == ValidIDs(w)
  {
    hide IsTopological;
    SameIgnoreGraph(w, v);
    forall id ensures Managed(v, id) == Managed(w, id) {
    }
  }

  lemma WorldWired(g: ResourceGraph, req: Request, groups: map<ID, seq<Json>>, eval: Oracle, max: int)
    requires Built(g) && Provides(g, req.external) && Groups(g, req, groups)
    ensures var w := WorldFor(g, req, groups, eval, max);
            && WellWired(w) && w.specs.Keys == g.nodes.Keys + {INSTANCE} && INSTANCE !in g.nodes
            && (forall id | id in g.nodes :: w.specs[id].kind == g.nodes[id].kind)
            && Ordered(w, [INSTANCE] + g.order) && ValidIDs(w)
  {
    hide IsTopological, WorldOf, Groups, Provides, IgnoreGraph, WorldFor, NotEmpty, WellWired, Ordered, ValidIDs;
    BuiltKeys(g);
    GroupsObservable(g, req, groups);
    WorldOver(g, req, groups, eval, max);
    WorldWellWired(g, req.instance, eval, max);
    SpecsKnown(g, req.instance, eval, max);
    WorldOrdered(g, req.instance, eval, max);
    WorldIDs(g, req.instance, eval, max);
    var w := WorldOf(g, req.instance, eval, max);
    WellWiredGrows(w, NotEmpty(req.external) + groups);
    SameSpecsOrdered(w, WorldFor(g, req, groups, eval, max));
  }

  lemma ObservedOf(g: ResourceGraph, req: Request, groups: map<ID, seq<Json>>, eval: Oracle, max: int)
    requires Elems(g.order) <= g.nodes.Keys
    ensures var w := WorldFor(g, req, groups, eval, max);
            && w.observed == map[INSTANCE := [req.instance]] + NotEmpty(req.external) + groups
            && w == World(WiredSpecs(g, SeenIn(g)), w.observed, eval, max)
  {
    hide WiredSpecs, SeenIn, NotEmpty;
    AddedTwice(map[INSTANCE := [req.instance]], NotEmpty(req.external), groups);
  }

  lemma RanksOfGraph(g: ResourceGraph, req: Request, groups: map<ID, seq<Json>>, eval: Oracle, max: int)
    requires Built(g) && Provides(g, req.external) && Groups(g, req, groups)
    ensures var w := WorldFor(g, req, groups, eval, max);
            WellWired(w) && Ranked(w, Ranks(g)) && (forall id | id in g.order :: id in w.specs)
  {
    hide IsTopological, Provides, Groups, WiredSpecs, SeenIn, WellWired, WorldFor, WorldOf, Ranks, Linked, Ordered, ValidIDs, IgnoreGraph;
    BuiltKeys(g);
    WorldWired(g, req, groups, eval, max);
    ObservedOf(g, req, groups, eval, max);
    SpecsKnown(g, req.instance, eval, max);
    WorldOver(g, req, groups, eval, max);
    LinkedAreNodes(g);
    assert forall id | id in g.order :: id in Elems(g.order);
    RanksOfNodes(g);
    forall id, d | id in g.nodes && d in Linked(g, g.nodes[id]) ensures Ranks(g)[d] < Ranks(g)[id] {
      RanksFall(g, id, d);
    }
  }

  lemma RanksOfNodes(g: ResourceGraph)
    ensures Ranks(g).Keys == g.nodes.Keys + {INSTANCE}
  {
  }

  // ---- Reconciliation. ----

  /** What is known when external nodes are asked for: the instance and what external references have found. */
  ghost function FoundWorld(g: ResourceGraph, req: Request, eval: Oracle, max: int): World
    requires Elems(g.order) <= g.nodes.Keys
  {
    WorldFor(g, req.(composed := map[]), map[], eval, max)
  }

  lemma NoGroups(g: ResourceGraph, req: Request)
    ensures Groups(g, req.(composed := map[]), map[])
  {
    var members: map<ID, seq<string>> := map[];
    assert Naming.Grouped(req.(composed := map[]).composed, g.nodes.Keys, Collections(g), map[], members);
  }

  /**
    What a reconciliation may end with: resolved nodes from which everything emitted is safe, and which are, if
    references are right, exactly those that should be resolved.
   */
  ghost predicate Reconciled(w: World, before: map<string, Composed>, out: map<string, Composed>) {
    WellWired(w) && exists resolved :: SafeOutput(w, resolved, before, out) && (Adequate(w) ==> RunResult(w, before, resolved, out))
  }

  /** The interpreter can be run in the world. */
  ghost predicate Runnable(g: ResourceGraph, w: World) {
    WellWired(w) && Ranked(w, Ranks(g)) && NodesOf(w, g.order)
  }

  /** What a walk has done when external nodes have been asked for. */
  ghost function Selected(g: ResourceGraph, u: World, walk: Walk, before: map<string, Composed>): State
    requires Runnable(g, u) && Picks(walk)
  {
    SelectFrom(u, Ranks(g), walk, Beginning(before), g.order, 0)
  }

  /**
    The outcome that a walk determines: external nodes are asked for with what has been found, and all nodes are visited
    with what is observed altogether; values that were obtained before are kept.
   */
  ghost predicate RunsTo(g: ResourceGraph, req: Request, groups: map<ID, seq<Json>>, eval: Oracle, max: int, walk: Walk,
                         before: map<string, Composed>, ok: bool, out: map<string, Composed>)
    requires Elems(g.order) <= g.nodes.Keys
  {
    var u, w := FoundWorld(g, req, eval, max), WorldFor(g, req, groups, eval, max);
    && Runnable(g, u) && Runnable(g, w) && Picks(walk)
    && var s := Selected(g, u, walk, before);
       if s.ok then var e := RunFrom(w, Ranks(g), walk, s, g.order, 0); e.ok == ok && e.out == out
       else !ok && out == before
  }

  lemma IsRunnable(g: ResourceGraph, req: Request, groups: map<ID, seq<Json>>, eval: Oracle, max: int)
    requires Built(g) && Provides(g, req.external) && Groups(g, req, groups)
    ensures Elems(g.order) <= g.nodes.Keys
    ensures Runnable(g, WorldFor(g, req, groups, eval, max)) && Runnable(g, FoundWorld(g, req, eval, max))
  {
    hide IsTopological, Provides, Groups, WorldFor, Ranks, Ranked, WellWired;
    BuiltKeys(g);
    NoGroups(g, req);
    RanksOfGraph(g, req, groups, eval, max);
    RanksOfGraph(g, req.(composed := map[]), map[], eval, max);
    assert Provides(g, req.(composed := map[]).external) by {
      SameExternal(g, req);
    }
    assert forall id | id in g.order :: id in Elems(g.order);
  }

  lemma SameExternal(g: ResourceGraph, req: Request)
    requires Provides(g, req.external)
    ensures Provides(g, req.(composed := map[]).external)
  {
  }

  // ---- What the outcome means. ----

  /** No composed resource takes the place of what an external reference has found. */
  predicate NothingReplaced(req: Request, groups: map<ID, seq<Json>>) {
    NotEmpty(req.external).Keys !! groups.Keys
  }

  lemma FoundWithin(g: ResourceGraph, req: Request, groups: map<ID, seq<Json>>, eval: Oracle, max: int)
    requires Built(g) && Provides(g, req.external) && Groups(g, req, groups) && NothingReplaced(req, groups)
    ensures Elems(g.order) <= g.nodes.Keys
    ensures var u, w := FoundWorld(g, req, eval, max), WorldFor(g, req, groups, eval, max);
            && WellWired(u) && WellWired(w) && u.specs == w.specs && u.eval == w.eval == eval
            && Within(FullContext(u), FullContext(w))
  {
    hide IsTopological, Provides, Groups, WorldFor, Ranks, Ranked, WiredSpecs, SeenIn, NotEmpty;
    BuiltKeys(g);
    IsRunnable(g, req, groups, eval, max);
    ObservedOf(g, req, groups, eval, max);
    ObservedOf(g, req.(composed := map[]), map[], eval, max);
    var u, w := FoundWorld(g, req, eval, max), WorldFor(g, req, groups, eval, max);
    GroupsObservable(g, req, groups);
    assert INSTANCE !in groups;
    hide NothingReplaced, Observable, Runnable;
    assert u.observed + groups == w.observed by {
      AddedNothing(map[INSTANCE := [req.instance]], NotEmpty(req.external));
    }
    ContextGrows(u, w, groups);
  }

  lemma AddedNothing(a: map<ID, seq<Json>>, b: map<ID, seq<Json>>)
    ensures a + b + map[] == a + b
  {
  }

  lemma ContextGrows(u: World, w: World, more: map<ID, seq<Json>>)
    requires WellWired(u) && WellWired(w) && w == u.(observed := u.observed + more) && u.observed.Keys !! more.Keys
    ensures Within(FullContext(u), FullContext(w))
  {
  }

  /** The values that are kept from asking for external nodes are right when everything is observed. */
  ghost predicate KeptRight(g: ResourceGraph, req: Request, groups: map<ID, seq<Json>>, eval: Oracle, max: int, walk: Walk,
                            before: map<string, Composed>)
    requires Elems(g.order) <= g.nodes.Keys
  {
    var u, w := FoundWorld(g, req, eval, max), WorldFor(g, req, groups, eval, max);
    Runnable(g, u) && WellWired(w) && Picks(walk) && Sound(w, Selected(g, u, walk, before).memory.cache)
  }

  /** That is so if nothing that was found is replaced. */
  lemma KeptUnlessReplaced(g: ResourceGraph, req: Request, groups: map<ID, seq<Json>>, eval: Oracle, max: int, walk: Walk,
                           before: map<string, Composed>)
    requires Built(g) && Monotone(eval) && Provides(g, req.external) && Groups(g, req, groups) && NothingReplaced(req, groups)
    requires Picks(walk)
    ensures Elems(g.order) <= g.nodes.Keys && KeptRight(g, req, groups, eval, max, walk, before)
  {
    hide IsTopological, Provides, Groups, WorldFor, FoundWorld, Ranks, Ranked, WellWired, Monotone, Within, FullContext, Sound, SelectFrom;
    hide Adequate, SelectorsFaultless, Picks, NothingManaged;
    IsRunnable(g, req, groups, eval, max);
    var u, w := FoundWorld(g, req, eval, max), WorldFor(g, req, groups, eval, max);
    FoundWithin(g, req, groups, eval, max);
    var s := SelectedMeans(g, u, walk, before);
    SoundWithin(u, w, s.memory.cache);
  }

  /** A successful reconciliation is sound, and with right references ends with the determined result. */
  lemma RunsReconciled(g: ResourceGraph, req: Request, groups: map<ID, seq<Json>>, eval: Oracle, max: int, walk: Walk,
                       before: map<string, Composed>, out: map<string, Composed>)
    requires Built(g) && Monotone(eval) && Provides(g, req.external) && Groups(g, req, groups)
    requires Elems(g.order) <= g.nodes.Keys && RunsTo(g, req, groups, eval, max, walk, before, true, out)
    requires KeptRight(g, req, groups, eval, max, walk, before)
    ensures Reconciled(WorldFor(g, req, groups, eval, max), before, out)
  {
    hide IsTopological, Provides, Groups, WorldFor, FoundWorld, Ranks, Ranked, WellWired, Monotone, Within, FullContext, Sound, SelectFrom;
    hide RunFrom, Ordered, ValidIDs, SafeOutput, RunResult, NothingManaged, Adequate, Faultless, SelectorsFaultless, Obstructed, Picks;
    var u, w := FoundWorld(g, req, eval, max), WorldFor(g, req, groups, eval, max);
    FoundSame(g, req, groups, eval, max);
    WorldWired(g, req, groups, eval, max);
    var s := SelectedMeans(g, u, walk, before);
    SameManaged(u, w, s.desired);
    RunMeans(w, Ranks(g), walk, s, g.order);
  }

  lemma FoundSame(g: ResourceGraph, req: Request, groups: map<ID, seq<Json>>, eval: Oracle, max: int)
    requires Elems(g.order) <= g.nodes.Keys
    ensures var u, w := FoundWorld(g, req, eval, max), WorldFor(g, req, groups, eval, max);
            u.specs == w.specs && u.eval == w.eval == eval && u.maxCollectionSize == w.maxCollectionSize == max
  {
    hide WiredSpecs, SeenIn, NotEmpty;
  }

  lemma SameManaged(u: World, w: World, desired: Desired)
    requires u.specs == w.specs && NothingManaged(u, desired)
    ensures forall id | Managed(w, id) :: id !in desired
  {
    forall id | Managed(w, id) ensures id !in desired {
      assert Managed(u, id);
    }
  }

  lemma SelectedMeans(g: ResourceGraph, u: World, walk: Walk, before: map<string, Composed>) returns (s: State)
    requires Runnable(g, u) && Monotone(u.eval) && Picks(walk)
    ensures s == Selected(g, u, walk, before) && Sound(u, s.memory.cache) && s.out == before && NothingManaged(u, s.desired)
    ensures Adequate(u) && SelectorsFaultless(u) && !s.ok ==> exists id :: id in g.order && id in u.specs && Obstructed(u, id)
  {
    hide WellWired, Monotone, Sound, Ranked, Ranks, SelectFrom, Adequate, SelectorsFaultless, Obstructed, NothingManaged, Picks;
    BeginningMeans(u);
    assert Elems(g.order[..0]) == {};
    s := Selected(g, u, walk, before);
    SelectFromMeans(u, Ranks(g), walk, Beginning(before), g.order, 0);
  }

  /** An external node that stands for many meets a dependency whose undecided condition refers to the instance only. */
  ghost predicate Obstacle(g: ResourceGraph, u: World) {
    WellWired(u) && exists id :: id in g.order && id in u.specs && Obstructed(u, id)
  }

  /** References are right in any world of the graph if they are right in one. */
  lemma SameAdequate(u: World, w: World)
    requires u.specs == w.specs && u.eval == w.eval
    ensures Adequate(u) == Adequate(w)
  {
    hide ReadsOnly, ReadsItself;
    forall id | id in u.specs ensures AdequateSpec(u, id) == AdequateSpec(w, id) {
      assert forall e :: Covered(u, u.specs[id], e) == Covered(w, w.specs[id], e);
      assert forall e :: ReadsItself(u, id, e) == ReadsItself(w, id, e) by {
        SameReads(u, w, id);
      }
    }
  }

  lemma SameReads(u: World, w: World, id: ID)
    requires u.eval == w.eval
    ensures forall e :: ReadsItself(u, id, e) == ReadsItself(w, id, e)
  {
    hide ReadsOnly;
  }

  /** References are right, and nothing is at fault, neither when external nodes are asked for nor afterwards. */
  ghost predicate Unfailing(g: ResourceGraph, req: Request, groups: map<ID, seq<Json>>, eval: Oracle, max: int)
    requires Elems(g.order) <= g.nodes.Keys
  {
    var u, w := FoundWorld(g, req, eval, max), WorldFor(g, req, groups, eval, max);
    WellWired(u) && WellWired(w) && Adequate(w) && Faultless(w) && SelectorsFaultless(u)
  }

  /** Missing data alone does not end a reconciliation, unless there is an obstacle. */
  lemma RunsSucceed(g: ResourceGraph, req: Request, groups: map<ID, seq<Json>>, eval: Oracle, max: int, walk: Walk,
                    before: map<string, Composed>, ok: bool, out: map<string, Composed>)
    requires Built(g) && Monotone(eval) && Provides(g, req.external) && Groups(g, req, groups)
    requires Elems(g.order) <= g.nodes.Keys && RunsTo(g, req, groups, eval, max, walk, before, ok, out)
    requires KeptRight(g, req, groups, eval, max, walk, before)
    requires Unfailing(g, req, groups, eval, max)
    requires !Obstacle(g, FoundWorld(g, req, eval, max))
    ensures ok
  {
    hide IsTopological, Provides, Groups, WorldFor, FoundWorld, Ranks, Ranked, WellWired, Monotone, Within, FullContext, Sound, SelectFrom;
    hide RunFrom, Ordered, ValidIDs, SafeOutput, RunResult, NothingManaged, Adequate, Faultless, SelectorsFaultless, Obstructed, Picks;
    var u, w := FoundWorld(g, req, eval, max), WorldFor(g, req, groups, eval, max);
    FoundSame(g, req, groups, eval, max);
    SameAdequate(u, w);
    WorldWired(g, req, groups, eval, max);
    var s := SelectedMeans(g, u, walk, before);
    SameManaged(u, w, s.desired);
    RunMeans(w, Ranks(g), walk, s, g.order);
  }

  /**
    Reconciliations with right references and without faults succeed for all walks if and only if there is no obstacle:
    then missing data alone never ends one.
   */
  lemma RunsSucceedIff(g: ResourceGraph, req: Request, groups: map<ID, seq<Json>>, eval: Oracle, max: int, before: map<string, Composed>)
    requires Built(g) && Monotone(eval) && Provides(g, req.external) && Groups(g, req, groups) && NothingReplaced(req, groups)
    requires Elems(g.order) <= g.nodes.Keys
    requires Unfailing(g, req, groups, eval, max)
    ensures (forall walk, ok, out | RunsTo(g, req, groups, eval, max, walk, before, ok, out) :: ok) <==>
            !Obstacle(g, FoundWorld(g, req, eval, max))
  {
    hide IsTopological, Provides, Groups, WorldFor, FoundWorld, Ranks, Ranked, WellWired, Monotone, SelectFrom;
    hide RunFrom, Adequate, Faultless, SelectorsFaultless, Obstructed, Picks, Within, FullContext, KeptRight;
    var u, w := FoundWorld(g, req, eval, max), WorldFor(g, req, groups, eval, max);
    if Obstacle(g, u) {
      FoundWithin(g, req, groups, eval, max);
      SameAdequate(u, w);
      IsRunnable(g, req, groups, eval, max);
      SelectorsFailIff(u, Ranks(g), g.order, before);
      var walk :| Picks(walk) && !SelectFrom(u, Ranks(g), walk, Beginning(before), g.order, 0).ok;
      assert RunsTo(g, req, groups, eval, max, walk, before, false, before);
    } else {
      forall walk, ok, out | RunsTo(g, req, groups, eval, max, walk, before, ok, out) ensures ok {
        KeptUnlessReplaced(g, req, groups, eval, max, walk, before);
        RunsSucceed(g, req, groups, eval, max, walk, before, ok, out);
      }
    }
  }

  /** The outcome that a walk determines, and what it means. */
  ghost predicate Outcome(g: ResourceGraph, req: Request, groups: map<ID, seq<Json>>, eval: Oracle, max: int, walk: Walk,
                          before: map<string, Composed>, ok: bool, out: map<string, Composed>)
    requires Elems(g.order) <= g.nodes.Keys
  {
    && RunsTo(g, req, groups, eval, max, walk, before, ok, out)
    && (Monotone(eval) && KeptRight(g, req, groups, eval, max, walk, before) ==>
         var w := WorldFor(g, req, groups, eval, max);
         && (ok ==> Reconciled(w, before, out))
         && (Unfailing(g, req, groups, eval, max) && !Obstacle(g, FoundWorld(g, req, eval, max)) ==> ok))
  }

  lemma IsOutcome(g: ResourceGraph, req: Request, groups: map<ID, seq<Json>>, eval: Oracle, max: int, walk: Walk,
                  before: map<string, Composed>, ok: bool, out: map<string, Composed>)
    requires Built(g) && Provides(g, req.external) && Groups(g, req, groups) && Elems(g.order) <= g.nodes.Keys
    requires RunsTo(g, req, groups, eval, max, walk, before, ok, out)
    ensures Outcome(g, req, groups, eval, max, walk, before, ok, out)
  {
    hide IsTopological, Provides, Groups, WorldFor, FoundWorld, WellWired, Monotone, Unfailing, Obstacle;
    hide Reconciled, RunFrom, SelectFrom, Ranks, Ranked, Picks, KeptRight;
    if Monotone(eval) && KeptRight(g, req, groups, eval, max, walk, before) {
      var w := WorldFor(g, req, groups, eval, max);
      if ok {
        RunsReconciled(g, req, groups, eval, max, walk, before, out);
      }
      if Unfailing(g, req, groups, eval, max) && !Obstacle(g, FoundWorld(g, req, eval, max)) {
        RunsSucceed(g, req, groups, eval, max, walk, before, ok, out);
      }
    }
  }

  // ---- The method. ----

  lemma IsGrouped(g: ResourceGraph, req: Request, groups: map<ID, seq<Json>>)
    requires exists members :: Naming.Grouped(req.composed, g.nodes.Keys, Collections(g), groups, members)
    ensures Groups(g, req, groups)
  {
  }

  /** Recording what was found, and then the groups, leads from one world to the next. */
  lemma WorldsGrow(g: ResourceGraph, req: Request, groups: map<ID, seq<Json>>, eval: Oracle, max: int)
    requires Built(g) && Groups(g, req, groups) && Provides(g, req.external)
    ensures Elems(g.order) <= g.nodes.Keys
    ensures var w, u := WorldOf(g, req.instance, eval, max), FoundWorld(g, req, eval, max);
            && w.(observed := w.observed + NotEmpty(req.external)) == u
            && u.(observed := u.observed + groups) == WorldFor(g, req, groups, eval, max)
  {
    hide IsTopological, WorldOf, Groups, Provides, WorldFor, NotEmpty, WiredSpecs, SeenIn;
    BuiltKeys(g);
    ObservedOf(g, req, groups, eval, max);
    ObservedOf(g, req.(composed := map[]), map[], eval, max);
    WorldOver(g, req.(composed := map[]), map[], eval, max);
    assert NotEmpty(req.external) + map[] == NotEmpty(req.external);
  }

  lemma NothingAtFirst(w: World)
    ensures NothingManaged(w, map[])
  {
  }

  /**
    A runtime is built, what external references have found is recorded and they are asked for again, the observed
    composed resources are recorded in any order, and the desired resources are built.
   */
  method Reconciliation(g: ResourceGraph, req: Request, eval: Oracle, max: int, walk: Walk, dcds: map<string, Composed>)
    returns (ok: bool, out: map<string, Composed>)
    requires Built(g) && Provides(g, req.external) && Picks(walk)
    ensures Elems(g.order) <= g.nodes.Keys
    ensures exists groups :: Groups(g, req, groups) && Outcome(g, req, groups, eval, max, walk, dcds, ok, out)
  {
    hide IsTopological, WellWired, Adequate, Faultless, Runtime.Valid, WorldOf, Managed, SafeOutput, RunResult, Right, NothingManaged;
    hide RunFrom, SelectFrom, Unevaluated, Ranked, Ranks, Groups, Provides, WorldFor, FoundWorld, NotEmpty, CacheOf, NodesOf, Picks, Outcome;
    BuiltKeys(g);
    var rt := FromGraph(g, req.instance, eval, max);
    var found := NotEmpty(req.external);
    var groups := Naming.GroupObservedByNodeID(req.composed, g.nodes.Keys, Collections(g));
    assert Groups(g, req, groups) by {
      IsGrouped(g, req, groups);
    }
    GroupsObservable(g, req, groups);
    WorldsGrow(g, req, groups, eval, max);
    IsRunnable(g, req, groups, eval, max);
    NothingCached(rt.net);
    NothingAtFirst(rt.net.w);
    ObserveAll(rt, found, map[]);
    ghost var u := rt.net.w;
    ghost var resolved;
    var tick;
    ok, tick, resolved := rt.ExternalRefSelectors(walk, 0, dcds, map[]);
    assert State(ok, dcds, resolved, Memory(CacheOf(rt.net), tick)) == Selected(g, u, walk, dcds);
    out := dcds;
    if ok {
      NothingAtFirst(u);
      SelectUnmanaged(u, Ranks(g), walk, Beginning(dcds), g.order, 0);
      ObserveAll(rt, groups, resolved);
      ok, out, resolved := rt.BuildDesiredComposed(walk, tick, dcds, resolved);
    }
    IsOutcome(g, req, groups, eval, max, walk, dcds, ok, out);
  }
}
