/** Which reconciliations of the same request emit the same resources. */
module Confluence {
  import opened Sets
  import opened Trees
  import opened Graphs
  import opened Objects
  import opened World
  import opened Adequacy
  import opened Reconcile
  import opened Faults
  import opened Runs
  import opened Wiring
  import opened Walks
  import opened Selectors
  import opened Reconciliations
  import opened Sharing
  import opened References
  import opened Extraction
  import opened Reordering
  import opened Exactness
  import Naming

  // ---- What map walks leave open. ----

  /** Collections of which two different items are observed; their order is the one in which a map is walked. */
  ghost function Mixed(g: ResourceGraph, req: Request): set<ID> {
    set c | c in Collections(g) && exists a, b :: Belongs(g, req, a, c) && Belongs(g, req, b, c) &&
                                                 req.composed[a] != req.composed[b]
  }

  predicate Belongs(g: ResourceGraph, req: Request, name: string, id: ID)
    ensures Belongs(g, req, name, id) ==> name in req.composed
  {
    name in req.composed && Naming.BelongsTo(name, HasIndex(req.composed[name]), g.nodes.Keys, Collections(g), id)
  }

  lemma UnmixedSame(g: ResourceGraph, req: Request, a: map<ID, seq<Json>>, inA: map<ID, seq<string>>,
                    b: map<ID, seq<Json>>, inB: map<ID, seq<string>>, c: ID)
    requires Naming.Grouped(req.composed, g.nodes.Keys, Collections(g), a, inA)
    requires Naming.Grouped(req.composed, g.nodes.Keys, Collections(g), b, inB)
    requires c in a && c in b && |a[c]| == |b[c]| && c in Collections(g) && c !in Mixed(g, req)
    ensures a[c] == b[c]
  {
    hide Naming.BelongsTo, Collections;
    forall k | 0 <= k < |a[c]| ensures a[c][k] == b[c][k] {
      assert Naming.Member(inA, inA[c][k], c) && Naming.Member(inB, inB[c][k], c);
      assert Belongs(g, req, inA[c][k], c) && Belongs(g, req, inB[c][k], c);
    }
  }

  /** Different walks over the observed resources reorder the items of mixed collections and nothing else. */
  lemma GroupsReorder(g: ResourceGraph, req: Request, a: map<ID, seq<Json>>, b: map<ID, seq<Json>>)
    requires Groups(g, req, a) && Groups(g, req, b)
    ensures a.Keys == b.Keys <= g.nodes.Keys
    ensures forall id | id in a :: a[id] != [] && multiset(a[id]) == multiset(b[id]) && (id !in Mixed(g, req) ==> a[id] == b[id])
  {
    hide Naming.BelongsTo, Naming.Grouped, Mixed;
    var inA :| Naming.Grouped(req.composed, g.nodes.Keys, Collections(g), a, inA);
    var inB :| Naming.Grouped(req.composed, g.nodes.Keys, Collections(g), b, inB);
    Naming.GroupsPermute(req.composed, g.nodes.Keys, Collections(g), a, inA, b, inB);
    forall id | id in a && id in Collections(g) && id !in Mixed(g, req) ensures a[id] == b[id] {
      assert |a[id]| == |multiset(a[id])| == |multiset(b[id])| == |b[id]|;
      UnmixedSame(g, req, a, inA, b, inB, id);
    }
  }

  lemma WorldsReordered(g: ResourceGraph, req: Request, a: map<ID, seq<Json>>, b: map<ID, seq<Json>>, eval: Oracle, max: int)
    requires Built(g) && Provides(g, req.external) && Groups(g, req, a) && Groups(g, req, b)
    ensures Reordered(WorldFor(g, req, a, eval, max), WorldFor(g, req, b, eval, max), Mixed(g, req))
  {
    hide IsTopological, Groups, Provides, WorldFor, Reordered, WiredSpecs, SeenIn, WellWired, Ordered, ValidIDs, Mixed, NotEmpty;
    BuiltKeys(g);
    WorldWired(g, req, a, eval, max);
    GroupsReorder(g, req, a, b);
    GroupsObservable(g, req, a);
    ObservedOf(g, req, a, eval, max);
    ObservedOf(g, req, b, eval, max);
    MixedAreCollections(g, req);
    ReorderedBy(WorldFor(g, req, a, eval, max), WorldFor(g, req, b, eval, max),
                map[INSTANCE := [req.instance]] + NotEmpty(req.external), a, b, Mixed(g, req));
  }

  /** Observations that differ in the order of items. */
  lemma ReorderedBy(w: World, v: World, base: map<ID, seq<Json>>, a: map<ID, seq<Json>>, b: map<ID, seq<Json>>, mixed: set<ID>)
    requires w.observed == base + a && v == w.(observed := base + b)
    requires a.Keys == b.Keys && base.Keys + a.Keys <= w.specs.Keys
    requires forall id | id in mixed :: id in w.specs && IsMany(w.specs[id].kind)
    requires forall id | id in a :: multiset(a[id]) == multiset(b[id]) && (id !in mixed ==> a[id] == b[id])
    ensures Reordered(w, v, mixed)
  {
  }

  lemma MixedAreCollections(g: ResourceGraph, req: Request)
    ensures forall c | c in Mixed(g, req) :: c in g.nodes && IsMany(g.nodes[c].kind)
  {
  }

  // ---- Run confluence. ----

  /** The graph's nodes, wired, before anything is observed. */
  ghost function Unobserved(g: ResourceGraph, max: int): World
    requires Elems(g.order) <= g.nodes.Keys
  {
    World(WiredSpecs(g, SeenIn(g)), map[], (text: string, ctx: Ctx) => Pending, max)
  }

  ghost predicate UsedIn(g: ResourceGraph, e: Expr)
    requires Elems(g.order) <= g.nodes.Keys
  {
    Used(Unobserved(g, 0), e)
  }

  lemma RightItems(g: ResourceGraph, w: World)
    requires Built(g) && Consistent(g) && RightReferences(g, w.eval) && w.specs == WiredSpecs(g, SeenIn(g))
    ensures ItemsReadReferences(w)
  {
    hide ReadsOnly, IsTopological, SeenIn, Consistent;
    SharingUnnoticedIff(g);
    forall n, e | ItemUsed(w, n, e) ensures ReadsOnly(w.eval, e.original, e.refs) {
      var node := if n == INSTANCE then InstanceOf(g) else g.nodes[n];
      UnsharedSpec(g, node);
      assert w.specs[n] == WiredSpec(g, map[], node) && RightNode(g, w.eval, node, n);
    }
  }

  lemma UsedInWorld(g: ResourceGraph, w: World)
    requires Elems(g.order) <= g.nodes.Keys && w.specs == WiredSpecs(g, SeenIn(g))
    ensures forall e :: Used(w, e) <==> UsedIn(g, e)
  {
    hide WiredSpecs, SeenIn, Used;
    forall e ensures Used(w, e) <==> UsedIn(g, e) {
      if Used(w, e) {
        UsedSame(w, Unobserved(g, 0), e);
      }
      if UsedIn(g, e) {
        UsedSame(Unobserved(g, 0), w, e);
      }
    }
  }

  /** With right references, and if no used expression looks at the order of mixed collections, one output is possible. */
  lemma RightConfluent(g: ResourceGraph, req: Request, eval: Oracle, max: int, dcds: map<string, Composed>,
                       a: map<ID, seq<Json>>, outA: map<string, Composed>, b: map<ID, seq<Json>>, outB: map<string, Composed>)
    requires Built(g) && Consistent(g) && RightReferences(g, eval) && Provides(g, req.external)
    requires Groups(g, req, a) && Groups(g, req, b)
    requires forall e | UsedIn(g, e) :: Indifferent(eval, e, Mixed(g, req))
    requires Reconciled(WorldFor(g, req, a, eval, max), dcds, outA) && Reconciled(WorldFor(g, req, b, eval, max), dcds, outB)
    ensures outA == outB
  {
    hide IsTopological, Groups, Provides, WorldFor, Reordered, WiredSpecs, SeenIn, WellWired, Ordered, ValidIDs, Mixed;
    hide RunResult, SafeOutput, Used, UsedIn, Indifferent, Adequate, RightReferences, Consistent, ItemsReadReferences;
    BuiltKeys(g);
    var w, v := WorldFor(g, req, a, eval, max), WorldFor(g, req, b, eval, max);
    WorldWired(g, req, a, eval, max);
    WorldsReordered(g, req, a, b, eval, max);
    ObservedOf(g, req, a, eval, max);
    ObservedOf(g, req, b, eval, max);
    RightItems(g, w);
    ConsistentAdequate(g, w);
    ConsistentAdequate(g, v);
    UsedInWorld(g, w);
    var x :| SafeOutput(w, x, dcds, outA) && RunResult(w, dcds, x, outA);
    var y :| SafeOutput(v, y, dcds, outB) && RunResult(v, dcds, y, outB);
    ReorderedConfluent(w, v, Mixed(g, req), [INSTANCE] + g.order, dcds, x, outA, y, outB);
  }

  lemma ReorderedNodes(g: ResourceGraph, order: seq<ID>, req: Request)
    requires Built(g) && Built(g.(order := order)) && Consistent(g)
    ensures forall groups, eval, max :: WorldFor(g.(order := order), req, groups, eval, max) == WorldFor(g, req, groups, eval, max)
  {
    hide WiredSpecs, SeenIn, IsTopological, Consistent;
    SameSpecs(g, order);
  }

  /** No composed resource belongs to a node for which an external reference has found something. */
  predicate NoneReplaced(g: ResourceGraph, req: Request) {
    forall id, name | id in NotEmpty(req.external) && name in req.composed :: !Belongs(g, req, name, id)
  }

  lemma NoneReplacedBy(g: ResourceGraph, req: Request, groups: map<ID, seq<Json>>)
    requires NoneReplaced(g, req) && Groups(g, req, groups)
    ensures NothingReplaced(req, groups)
  {
    hide Naming.BelongsTo;
    var members :| Naming.Grouped(req.composed, g.nodes.Keys, Collections(g), groups, members);
    forall id | id in NotEmpty(req.external) ensures id !in groups {
      Naming.GroupKnown(req.composed, g.nodes.Keys, Collections(g), groups, members, id);
      assert forall name | name in req.composed :: !Belongs(g, req, name, id);
    }
  }

  /**
    Run confluence. The references of an inspected graph without comprehension captures are right, and if the same
    texts have the same references, they stay right when states are shared. Then reconciliations of the same request
    that succeed emit the same resources, whatever the order of the nodes and whatever the order in which maps are
    walked, provided that no used expression looks at the order of a collection of which different items are observed,
    and that no composed resource takes the place of what an external reference has found.
   */
  lemma ReconciliationsConfluent(g: ResourceGraph, order: seq<ID>, lang: Language, req: Request, eval: Oracle, max: int,
                                 dcds: map<string, Composed>,
                                 a: map<ID, seq<Json>>, walkA: Walk, outA: map<string, Composed>,
                                 b: map<ID, seq<Json>>, walkB: Walk, outB: map<string, Composed>)
    requires Built(g) && Built(g.(order := order)) && Consistent(g) && Inspected(g, lang) && Speaks(eval, lang) && Monotone(eval)
    requires Provides(g, req.external) && NoneReplaced(g, req) && Groups(g, req, a) && Groups(g, req, b)
    requires Elems(g.order) <= g.nodes.Keys && Elems(order) <= g.nodes.Keys
    requires forall e | UsedIn(g, e) :: Indifferent(eval, e, Mixed(g, req))
    requires RunsTo(g, req, a, eval, max, walkA, dcds, true, outA)
    requires RunsTo(g.(order := order), req, b, eval, max, walkB, dcds, true, outB)
    ensures outA == outB
  {
    hide IsTopological, Groups, Provides, WorldFor, Reconciled, UsedIn, RightReferences, Consistent, Inspected, Speaks, Indifferent;
    hide RunsTo, Monotone, Mixed, NothingReplaced, NoneReplaced, KeptRight;
    var h := g.(order := order);
    InspectedRight(g, lang, eval);
    ReorderedNodes(g, order, req);
    NoneReplacedBy(g, req, a);
    NoneReplacedBy(g, req, b);
    SameRequest(g, order, req, b);
    PicksOf(g, req, a, eval, max, walkA, dcds, outA);
    PicksOf(h, req, b, eval, max, walkB, dcds, outB);
    KeptUnlessReplaced(g, req, a, eval, max, walkA, dcds);
    KeptUnlessReplaced(h, req, b, eval, max, walkB, dcds);
    RunsReconciled(g, req, a, eval, max, walkA, dcds, outA);
    RunsReconciled(h, req, b, eval, max, walkB, dcds, outB);
    RightConfluent(g, req, eval, max, dcds, a, outA, b, outB);
  }

  lemma PicksOf(g: ResourceGraph, req: Request, groups: map<ID, seq<Json>>, eval: Oracle, max: int, walk: Walk,
                before: map<string, Composed>, out: map<string, Composed>)
    requires Elems(g.order) <= g.nodes.Keys && RunsTo(g, req, groups, eval, max, walk, before, true, out)
    ensures Picks(walk)
  {
    hide Runnable, Picks, RunFrom, SelectFrom;
  }

  lemma SameRequest(g: ResourceGraph, order: seq<ID>, req: Request, groups: map<ID, seq<Json>>)
    ensures Groups(g.(order := order), req, groups) == Groups(g, req, groups)
    ensures Provides(g.(order := order), req.external) == Provides(g, req.external)
  {
    hide Naming.Grouped;
    assert Collections(g.(order := order)) == Collections(g);
  }

  // ---- The condition is exact. ----

  /** Values of the kinds that are asked for can be given to all expressions. */
  ghost predicate ProperGraph(g: ResourceGraph, max: int)
    requires Elems(g.order) <= g.nodes.Keys
  {
    Proper(Unobserved(g, max))
  }

  /** Every node has been found or belongs to an observed resource. */
  predicate EverythingObserved(g: ResourceGraph, req: Request) {
    forall id | id in g.nodes :: id in NotEmpty(req.external) || exists name | name in req.composed :: Belongs(g, req, name, id)
  }

  /** Whatever expressions evaluate to, all walks that succeed lead to the same resources. */
  ghost predicate WalkNeverShows(g: ResourceGraph, req: Request, max: int)
    requires Elems(g.order) <= g.nodes.Keys
  {
    forall eval, dcds, a, walkA, outA, b, walkB, outB |
      && Monotone(eval) && RightReferences(g, eval) && Groups(g, req, a) && Groups(g, req, b)
      && RunsTo(g, req, a, eval, max, walkA, dcds, true, outA) && RunsTo(g, req, b, eval, max, walkB, dcds, true, outB) ::
      outA == outB
  }

  lemma HasGroup(g: ResourceGraph, req: Request, groups: map<ID, seq<Json>>, name: string, id: ID)
    requires Groups(g, req, groups) && Belongs(g, req, name, id)
    ensures id in groups && groups[id] != []
  {
    hide Naming.BelongsTo;
    var members :| Naming.Grouped(req.composed, g.nodes.Keys, Collections(g), groups, members);
    Naming.GroupKnown(req.composed, g.nodes.Keys, Collections(g), groups, members, id);
  }

  lemma AllHaveObjects(w: World, instance: Json, found: map<ID, seq<Json>>, groups: map<ID, seq<Json>>)
    requires w.observed == map[INSTANCE := [instance]] + found + groups
    requires forall id | id in found :: found[id] != []
    requires forall id | id in w.specs && id != INSTANCE :: (id in groups && groups[id] != []) || (id in found && id !in groups)
    requires INSTANCE !in found && INSTANCE !in groups
    ensures AllObserved(w)
  {
  }

  lemma IsObserved(g: ResourceGraph, req: Request, groups: map<ID, seq<Json>>, eval: Oracle, max: int)
    requires Built(g) && Provides(g, req.external) && Groups(g, req, groups) && EverythingObserved(g, req)
    ensures AllObserved(WorldFor(g, req, groups, eval, max))
  {
    hide IsTopological, Provides, WorldFor, WiredSpecs, SeenIn, WellWired, Ordered, ValidIDs, Belongs, Groups, AllObserved;
    BuiltKeys(g);
    WorldWired(g, req, groups, eval, max);
    ObservedOf(g, req, groups, eval, max);
    GroupsObservable(g, req, groups);
    forall id | id in g.nodes ensures (id in groups && groups[id] != []) || (id in NotEmpty(req.external) && id !in groups) {
      if id !in NotEmpty(req.external) {
        var name :| Belongs(g, req, name, id);
        HasGroup(g, req, groups, name, id);
      }
    }
    AllHaveObjects(WorldFor(g, req, groups, eval, max), req.instance, NotEmpty(req.external), groups);
  }

  lemma ProperWorld(g: ResourceGraph, w: World)
    requires Elems(g.order) <= g.nodes.Keys && w.specs == WiredSpecs(g, SeenIn(g)) && ProperGraph(g, w.maxCollectionSize)
    ensures Proper(w)
  {
    hide WiredSpecs, SeenIn, HasExpr, Renders;
    var v := Unobserved(g, w.maxCollectionSize);
    assert DimensionTexts(w) == DimensionTexts(v) && LabelTexts(w) == LabelTexts(v);
    forall id | id in w.specs ensures ProperSpec(w, w.specs[id]) {
      assert ProperSpec(v, v.specs[id]);
    }
  }

  /** The references of a graph whose nodes are proper are right for an oracle that tells by `e`. */
  lemma ToldRight(g: ResourceGraph, w: World, e: Expr, c: ID, x: Json)
    requires Built(g) && Consistent(g) && w.specs == WiredSpecs(g, SeenIn(g)) && Told(w, e, c, x)
    ensures RightReferences(g, w.eval)
  {
    hide Told, IsTopological, SeenIn, Consistent;
    SharingUnnoticedIff(g);
    forall id | id in g.nodes ensures RightNode(g, w.eval, g.nodes[id], id) {
      ToldRightNode(g, w, e, c, x, id, g.nodes[id]);
    }
    ToldRightNode(g, w, e, c, x, INSTANCE, InstanceOf(g));
  }

  lemma ToldRightNode(g: ResourceGraph, w: World, e: Expr, c: ID, x: Json, id: ID, n: GraphNode)
    requires Told(w, e, c, x) && id in w.specs && w.specs[id] == WiredSpec(g, map[], n)
    ensures RightNode(g, w.eval, n, id)
  {
    hide Told, ReadsOnly, Renders;
    UnsharedSpec(g, n);
    SpecProper(w, e, c, x, id);
    ToldEval(w, e, c, x);
    forall f | HasExpr(w.specs[id], f) ensures ReadsOnly(w.eval, f.original, f.refs) {
      ToldReads(w, e, c, x, id, f);
    }
    forall f, ids | f in w.specs[id].readyWhen ensures ReadsOnly(w.eval, f.original, ids) {
      TellingReads(e.original, c, x, TextsOf(w), f.original, ids);
    }
    assert forall f | f in n.forEach :: HasExpr(w.specs[id], f.expr);
    assert forall v | v in n.vars :: HasExpr(w.specs[id], v.expr);
  }

  lemma UsedIsThere(w: World, e: Expr)
    requires Used(w, e)
    ensures exists id :: id in w.specs && HasExpr(w.specs[id], e)
  {
    var n :| ConditionUsed(w, n, e) || FieldUsed(w, n, e) || ItemUsed(w, n, e);
    assert n in w.specs && HasExpr(w.specs[n], e);
  }

  /** The world in which `e` tells the first item of `c`, with the items listed as in `groups`. */
  lemma ToldWorld(g: ResourceGraph, req: Request, max: int, groups: map<ID, seq<Json>>, e: Expr, c: ID, x: Json, eval: Oracle)
    requires Built(g) && Consistent(g) && Provides(g, req.external) && EverythingObserved(g, req) && ProperGraph(g, max)
    requires Groups(g, req, groups) && c in Collections(g) && c in groups && groups[c] != [] && UsedIn(g, e) && c in e.refs
    requires eval == Telling(e.original, c, x, TextsOf(Unobserved(g, 0)))
    ensures var w := WorldFor(g, req, groups, eval, max);
            Told(w, e, c, x) && Used(w, e) && Observed(w, c)[0] == groups[c][0]
  {
    hide IsTopological, Provides, WiredSpecs, SeenIn, WellWired, Ordered, ValidIDs, Groups, AllObserved, Used, Proper;
    hide EverythingObserved, WorldFor, Telling, Consistent, TextsOf;
    BuiltKeys(g);
    var w := WorldFor(g, req, groups, eval, max);
    WorldWired(g, req, groups, eval, max);
    ObservedOf(g, req, groups, eval, max);
    IsObserved(g, req, groups, eval, max);
    ProperWorld(g, w);
    UsedInWorld(g, w);
    UsedIsThere(w, e);
    SameTexts(w, Unobserved(g, 0));
  }

  lemma SameTexts(w: World, v: World)
    requires w.specs == v.specs
    ensures TextsOf(w) == TextsOf(v)
  {
  }

  /**
    The walk shows: if a used expression refers to a collection of which two different items are observed, some oracle
    that never fails and reads recorded references only leads to different resources for two walks over the observed
    resources, and both reconciliations succeed.
   */
  lemma WalkShows(g: ResourceGraph, req: Request, max: int, e: Expr, c: ID, walk: Walk)
    returns (eval: Oracle, a: map<ID, seq<Json>>, outA: map<string, Composed>, b: map<ID, seq<Json>>, outB: map<string, Composed>)
    requires Built(g) && Consistent(g) && Provides(g, req.external) && EverythingObserved(g, req) && ProperGraph(g, max)
    requires NoneReplaced(g, req) && UsedIn(g, e) && c in e.refs && c in Mixed(g, req) && Picks(walk)
    ensures Elems(g.order) <= g.nodes.Keys
    ensures Monotone(eval) && RightReferences(g, eval) && Groups(g, req, a) && Groups(g, req, b)
    ensures RunsTo(g, req, a, eval, max, walk, map[], true, outA) && RunsTo(g, req, b, eval, max, walk, map[], true, outB)
    ensures outA != outB
  {
    hide IsTopological, Provides, WiredSpecs, SeenIn, WellWired, Ordered, ValidIDs, Belongs, Groups, Used, UsedIn, ProperGraph;
    hide EverythingObserved, WorldFor, Telling, Consistent, TextsOf, Adequate, Faultless, RightReferences, Monotone, Reconciled;
    hide RunResult, Told, RunsTo, NoneReplaced;
    BuiltKeys(g);
    var p, q :| Belongs(g, req, p, c) && Belongs(g, req, q, c) && req.composed[p] != req.composed[q];
    var x := req.composed[p];
    a := GroupsWithFirst(g, req, p, c);
    b := GroupsWithFirst(g, req, q, c);
    eval := Telling(e.original, c, x, TextsOf(Unobserved(g, 0)));
    var w, v := WorldFor(g, req, a, eval, max), WorldFor(g, req, b, eval, max);
    var x', y';
    x', outA := ToldRuns(g, req, max, a, e, c, x, eval, walk);
    y', outB := ToldRuns(g, req, max, b, e, c, x, eval, walk);
    assert Bright(w, e, c, x) && Dark(v, e, c, x);
    ObservedOf(g, req, a, eval, max);
    ObservedOf(g, req, b, eval, max);
    WorldWired(g, req, a, eval, max);
    OrderShows(w, v, [INSTANCE] + g.order, e, c, x, x', outA, y', outB);
  }

  lemma GroupsWithFirst(g: ResourceGraph, req: Request, name: string, c: ID) returns (groups: map<ID, seq<Json>>)
    requires Belongs(g, req, name, c)
    ensures Groups(g, req, groups) && c in groups && groups[c] != [] && groups[c][0] == req.composed[name]
  {
    hide Naming.Grouped, Naming.BelongsTo;
    ghost var members;
    groups, members := Naming.AnyFirst(req.composed, g.nodes.Keys, Collections(g), name, c);
  }

  /** There is an outcome. */
  lemma RunsSomewhere(g: ResourceGraph, req: Request, groups: map<ID, seq<Json>>, eval: Oracle, max: int, walk: Walk, before: map<string, Composed>)
    returns (ok: bool, out: map<string, Composed>)
    requires Built(g) && Provides(g, req.external) && Groups(g, req, groups) && Picks(walk)
    ensures Elems(g.order) <= g.nodes.Keys && RunsTo(g, req, groups, eval, max, walk, before, ok, out)
  {
    hide IsTopological, Provides, Groups, WorldFor, FoundWorld, RunFrom, SelectFrom, Ranks, Ranked, WellWired, Picks;
    IsRunnable(g, req, groups, eval, max);
    var s := Selected(g, FoundWorld(g, req, eval, max), walk, before);
    ok, out := false, before;
    if s.ok {
      var e := RunFrom(WorldFor(g, req, groups, eval, max), Ranks(g), walk, s, g.order, 0);
      ok, out := e.ok, e.out;
    }
  }

  lemma ToldRuns(g: ResourceGraph, req: Request, max: int, groups: map<ID, seq<Json>>, e: Expr, c: ID, x: Json, eval: Oracle, walk: Walk)
    returns (desired: Desired, out: map<string, Composed>)
    requires Built(g) && Consistent(g) && Provides(g, req.external) && EverythingObserved(g, req) && ProperGraph(g, max)
    requires Groups(g, req, groups) && c in Collections(g) && c in groups && groups[c] != [] && UsedIn(g, e) && c in e.refs
    requires eval == Telling(e.original, c, x, TextsOf(Unobserved(g, 0))) && NoneReplaced(g, req) && Picks(walk)
    ensures Monotone(eval) && RightReferences(g, eval) && Elems(g.order) <= g.nodes.Keys
    ensures RunsTo(g, req, groups, eval, max, walk, map[], true, out)
    ensures var w := WorldFor(g, req, groups, eval, max);
            && Told(w, e, c, x) && Used(w, e) && Observed(w, c)[0] == groups[c][0]
            && WellWired(w) && RunResult(w, map[], desired, out)
  {
    hide IsTopological, Provides, WiredSpecs, SeenIn, WellWired, Ordered, ValidIDs, Groups, Used, UsedIn, ProperGraph, Told;
    hide EverythingObserved, WorldFor, Telling, Consistent, TextsOf, Adequate, Faultless, RightReferences, Monotone;
    hide RunResult, ItemsReadReferences, RunsTo, Unfailing, Obstacle, SafeOutput, NoneReplaced, NothingReplaced, FoundWorld, KeptRight;
    BuiltKeys(g);
    ToldWorld(g, req, max, groups, e, c, x, eval);
    var w := WorldFor(g, req, groups, eval, max);
    ObservedOf(g, req, groups, eval, max);
    WorldWired(g, req, groups, eval, max);
    ToldAdequate(w, e, c, x);
    ToldRight(g, w, e, c, x);
    NoneReplacedBy(g, req, groups);
    NothingInTheWay(g, req, groups, eval, max, e, c, x);
    var ok;
    ok, out := RunsSomewhere(g, req, groups, eval, max, walk, map[]);
    KeptUnlessReplaced(g, req, groups, eval, max, walk, map[]);
    RunsSucceed(g, req, groups, eval, max, walk, map[], ok, out);
    RunsReconciled(g, req, groups, eval, max, walk, map[], out);
    desired :| SafeOutput(w, desired, map[], out) && RunResult(w, map[], desired, out);
  }

  lemma NothingInTheWay(g: ResourceGraph, req: Request, groups: map<ID, seq<Json>>, eval: Oracle, max: int, e: Expr, c: ID, x: Json)
    requires Built(g) && Provides(g, req.external) && Groups(g, req, groups) && NothingReplaced(req, groups) && Elems(g.order) <= g.nodes.Keys
    requires Told(WorldFor(g, req, groups, eval, max), e, c, x)
    ensures !Obstacle(g, FoundWorld(g, req, eval, max)) && Unfailing(g, req, groups, eval, max)
  {
    hide IsTopological, Provides, Groups, WorldFor, FoundWorld, Told, Obstructed, WellWired, Within, FullContext;
    hide Adequate, Faultless, SelectorsFaultless;
    var u, w := FoundWorld(g, req, eval, max), WorldFor(g, req, groups, eval, max);
    FoundWithin(g, req, groups, eval, max);
    ToldAdequate(w, e, c, x);
    ToldFaultless(w, e, c, x);
    ToldSelectors(u, w, e, c, x);
    forall id | id in u.specs ensures !Obstructed(u, id) {
      ToldFree(u, w, e, c, x, id);
    }
  }

  /**
    Where everything is observed, walks never show in the resources that are emitted if and only if no used expression
    refers to a collection of which different items are observed.
   */
  lemma WalkNeverShowsIff(g: ResourceGraph, req: Request, max: int)
    requires Built(g) && Consistent(g) && Provides(g, req.external) && EverythingObserved(g, req) && ProperGraph(g, max)
    requires NoneReplaced(g, req)
    ensures WalkNeverShows(g, req, max) <==> forall e | UsedIn(g, e) :: e.refs !! Mixed(g, req)
  {
    hide IsTopological, Provides, Groups, UsedIn, ProperGraph, EverythingObserved, WorldFor, Consistent, RightReferences;
    hide Monotone, Reconciled, Mixed, BlindToOrder, RunsTo, NoneReplaced, NothingReplaced, KeptRight;
    BuiltKeys(g);
    if forall e | UsedIn(g, e) :: e.refs !! Mixed(g, req) {
      forall eval, dcds, a, walkA, outA, b, walkB, outB |
        && Monotone(eval) && RightReferences(g, eval) && Groups(g, req, a) && Groups(g, req, b)
        && RunsTo(g, req, a, eval, max, walkA, dcds, true, outA) && RunsTo(g, req, b, eval, max, walkB, dcds, true, outB)
        ensures outA == outB
      {
        NoneReplacedBy(g, req, a);
        NoneReplacedBy(g, req, b);
        PicksOf(g, req, a, eval, max, walkA, dcds, outA);
        PicksOf(g, req, b, eval, max, walkB, dcds, outB);
        KeptUnlessReplaced(g, req, a, eval, max, walkA, dcds);
        KeptUnlessReplaced(g, req, b, eval, max, walkB, dcds);
        RunsReconciled(g, req, a, eval, max, walkA, dcds, outA);
        RunsReconciled(g, req, b, eval, max, walkB, dcds, outB);
        RightConfluent(g, req, eval, max, dcds, a, outA, b, outB);
      }
    } else {
      var e :| UsedIn(g, e) && !(e.refs !! Mixed(g, req));
      var c :| c in e.refs && c in Mixed(g, req);
      var walk := AnyFirst;
      AnyFirstPicks();
      var eval, a, outA, b, outB := WalkShows(g, req, max, e, c, walk);
    }
  }

  ghost function AnyFirst(tick: nat, keys: set<string>): string {
    Any(keys)
  }

  lemma AnyFirstPicks()
    ensures Picks(AnyFirst)
  {
  }
}
