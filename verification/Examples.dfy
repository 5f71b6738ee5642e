/** Runs of two small graphs that end differently for different walks. */
module Examples {
  import opened Sets
  import opened Trees
  import opened Graphs
  import opened Resolver
  import opened Objects
  import opened World
  import opened Adequacy
  import opened Reconcile
  import opened Wiring
  import opened Walks
  import opened Sharing
  import opened Extraction
  import opened Selectors
  import opened Reconciliations
  import Naming
  import Text

  // ---- Steps that all walks take alike. ----

  /** Nodes without conditions whose dependencies have none either are not ignored, and nothing is evaluated. */
  lemma {:induction false} Unconditional(w: World, rank: map<ID, nat>, walk: Walk, m: Memory, desired: Desired, id: ID, ids: set<ID>)
    requires WellWired(w) && Picks(walk) && Ranked(w, rank) && id in ids && ids <= w.specs.Keys && Downward(w, ids)
    requires forall n | n in ids :: w.specs[n].includeWhen == []
    ensures var (r, next) := IgnoredNow(w, rank, walk, m, desired, id); r == NotIgnored && next.cache == m.cache
    decreases if id in rank then rank[id] else 0, 1
  {
    if !w.specs[id].kind.Instance? {
      UnconditionalDeps(w, rank, walk, m, desired, id, w.specs[id].deps, ids);
      assert NeededBy(w.specs[id].includeWhen) - {INSTANCE} == {};
    }
  }

  lemma {:induction false} UnconditionalDeps(w: World, rank: map<ID, nat>, walk: Walk, m: Memory, desired: Desired, id: ID,
                                             todo: set<ID>, ids: set<ID>)
    requires WellWired(w) && Picks(walk) && Ranked(w, rank) && id in w.specs && !w.specs[id].kind.Instance? && Downward(w, ids)
    requires todo <= w.specs[id].deps && todo <= ids <= w.specs.Keys && forall n | n in ids :: w.specs[n].includeWhen == []
    ensures var (r, next) := IgnoredFrom(w, rank, walk, m, desired, id, todo); r == NotIgnored && next.cache == m.cache
    decreases if id in rank then rank[id] else 0, 0, todo
  {
    if todo != {} {
      var d := walk(m.tick, todo);
      Unconditional(w, rank, walk, Memory(m.cache, m.tick + 1), desired, d, ids);
      UnconditionalDeps(w, rank, walk, IgnoredNow(w, rank, walk, Memory(m.cache, m.tick + 1), desired, d).1, desired, id, todo - {d}, ids);
    }
  }

  /** A resource without fields is its template. */
  lemma PlainObject(w: World, walk: Walk, m: Memory, id: ID)
    requires WellWired(w) && id in w.specs && Picks(walk) && w.specs[id].vars == [] && !w.specs[id].kind.Collection?
    ensures ObjectsNow(w, walk, m, id) == (Done([Clean(w.specs[id].template)]), m)
    ensures SingleNow(w, m.cache, id, []) == (Done(Clean(w.specs[id].template)), m.cache)
  {
    var spec := w.specs[id];
    assert BaseFrom(w, m.cache, id, Originals(spec.vars, false), 0, map[]) == (Done(map[]), m.cache);
    assert Descriptors(spec.vars) == [];
    assert Rendered(spec.template, [], map[]) == Some(Clean(spec.template));
    assert SingleNow(w, m.cache, id, spec.vars) == (Done(Clean(spec.template)), m.cache);
  }

  /** Asking for external nodes without fields evaluates nothing. */
  lemma {:induction false} NothingSelected(w: World, rank: map<ID, nat>, walk: Walk, s: State, order: seq<ID>, k: nat)
    requires WellWired(w) && Picks(walk) && Ranked(w, rank) && s.ok && k <= |order|
    requires forall id | id in order :: id in w.specs && !w.specs[id].kind.ExternalCollection? && w.specs[id].vars == []
    ensures SelectFrom(w, rank, walk, s, order, k) == s
    decreases |order| - k
  {
    hide ResolveNow, WellWired, Ranked;
    if k < |order| {
      var id := order[k];
      assert id in order;
      if w.specs[id].kind.External? {
        PlainObject(w, walk, s.memory, id);
        assert IdentityVars([]) == [];
      }
      assert SelectNow(w, rank, walk, s, id) == s;
      NothingSelected(w, rank, walk, s, order, k + 1);
    }
  }

  lemma PlainEmitted(w: World, rank: map<ID, nat>, walk: Walk, s: State, id: ID, obj: Json)
    requires WellWired(w) && id in w.specs && Picks(walk) && Ranked(w, rank)
    requires w.specs[id].readyWhen == [] && !w.specs[id].kind.Collection?
    ensures EmitFrom(w, rank, walk, s, id, [obj], 0) == s.(out := s.out[id := Composed(obj, Unspecified)])
  {
    hide IgnoredNow;
    assert ReadyStateNow(w, rank, walk, s.memory, s.desired, id) == (Unspecified, s.memory);
    assert ResourceName(w, id, obj) == id;
    var s' := s.(out := s.out[id := Composed(obj, Unspecified)], memory := s.memory);
    assert EmitFrom(w, rank, walk, s', id, [obj], 1) == s';
  }

  /** Dependencies that are ready without anything being evaluated. */
  lemma {:induction false} DependenciesPlain(w: World, rank: map<ID, nat>, walk: Walk, m: Memory, desired: Desired, id: ID,
                                             todo: set<ID>, ids: set<ID>)
    requires WellWired(w) && Picks(walk) && Ranked(w, rank) && id in w.specs && Downward(w, ids)
    requires todo <= w.specs[id].deps && todo <= ids <= w.specs.Keys && forall n | n in ids :: w.specs[n].includeWhen == []
    requires forall d | d in todo && d != INSTANCE :: ObservedNow(w, m.cache, desired, d) == (IsReady, m.cache)
    ensures var (r, next) := DependenciesFrom(w, rank, walk, m, desired, id, todo); r == IsReady && next.cache == m.cache
    decreases todo
  {
    hide ObservedNow, IgnoredNow;
    if todo != {} {
      var d := walk(m.tick, todo);
      var m' := Memory(m.cache, m.tick + 1);
      if d == INSTANCE {
        DependenciesPlain(w, rank, walk, m', desired, id, todo - {d}, ids);
      } else {
        Unconditional(w, rank, walk, m', desired, d, ids);
        DependenciesPlain(w, rank, walk, ReadyNow(w, rank, walk, m', desired, d).1, desired, id, todo - {d}, ids);
      }
    }
  }

  /** A resource without fields that is not ignored and whose dependencies are ready is emitted under its id. */
  lemma PlainVisit(w: World, rank: map<ID, nat>, walk: Walk, s: State, id: ID, ids: set<ID>)
    requires WellWired(w) && Picks(walk) && Ranked(w, rank) && id in w.specs && Downward(w, ids) && id !in s.desired
    requires w.specs[id].kind.Resource? && w.specs[id].vars == [] && w.specs[id].readyWhen == []
    requires w.specs[id].deps <= ids <= w.specs.Keys && forall n | n in ids :: w.specs[n].includeWhen == []
    requires var (ignored, m) := IgnoredNow(w, rank, walk, s.memory, s.desired, id);
             && ignored == NotIgnored
             && forall d | d in w.specs[id].deps && d != INSTANCE :: ObservedNow(w, m.cache, s.desired, d) == (IsReady, m.cache)
    ensures var s', m := VisitNow(w, rank, walk, s, id), IgnoredNow(w, rank, walk, s.memory, s.desired, id).1;
            && s'.ok == s.ok && s'.desired.Keys == s.desired.Keys + {id} && s'.memory.cache == m.cache
            && s'.out == s.out[id := Composed(Clean(w.specs[id].template), Unspecified)]
  {
    hide IgnoredNow, DependenciesFrom, Downward, ObjectsNow, EmitFrom, ObservedNow, WellWired, Ranked;
    var m := IgnoredNow(w, rank, walk, s.memory, s.desired, id).1;
    DependenciesPlain(w, rank, walk, m, s.desired, id, w.specs[id].deps, ids);
    var next := DependenciesFrom(w, rank, walk, m, s.desired, id, w.specs[id].deps).1;
    PlainObject(w, walk, next, id);
    var obj := Clean(w.specs[id].template);
    PlainEmitted(w, rank, walk, s.(desired := s.desired[id := [obj]], memory := next), id, obj);
  }

  // ---- The order in which the items of a collection are observed. ----

  /** The resource of a node with an empty template. */
  function Plain(): Composed {
    Composed(Clean(Obj(map[])), Unspecified)
  }

  const LISTED := Expr("schema.spec.names", {INSTANCE})

  function PlainNode(kind: Kind, dependencies: seq<ID>): GraphNode {
    GraphNode(kind, dependencies, Obj(map[]), [], [], [], [])
  }

  /** The condition looks at the first item of the collection. */
  function Peek(c: ID): Expr {
    Expr(c + "[0].ready", {c})
  }

  /** A resource that is included if the first item of a collection, of which none is desired any more, is ready. */
  function PeekGraph(c: ID, a: ID): ResourceGraph {
    ResourceGraph([c, a],
                  map[c := PlainNode(Collection, []).(forEach := [ForEach("name", LISTED)]),
                      a := PlainNode(Resource, [c]).(includeWhen := [Peek(c)])],
                  PlainNode(Instance, []))
  }

  function PeekOracle(c: ID, x: Json): Oracle {
    (text: string, ctx: Ctx) =>
      if text != Peek(c).original then Value(Arr([]))
      else if c !in ctx then Pending
      else Value(Bool(ctx[c].Arr? && ctx[c].items != [] && ctx[c].items[0] == x))
  }

  /** Two items are observed. */
  function PeekRequest(c: ID, x: Json, y: Json): Request {
    Request(Null, map[], map[Naming.ComposedName(c, true, "p") := x,
                             Naming.ComposedName(c, true, "q") := y])
  }

  predicate PeekIDs(c: ID, a: ID) {
    Naming.ValidID(c) && Naming.ValidID(a) && c != a && INSTANCE !in {c, a}
  }

  lemma PeekBuilt(c: ID, a: ID)
    requires PeekIDs(c, a)
    ensures Built(PeekGraph(c, a)) && Consistent(PeekGraph(c, a)) && Elems([c, a]) == {c, a}
  {
    var g := PeekGraph(c, a);
    assert g.order[..0] == [] && g.order[..1] == [c];
    assert Elems(g.order) == {c, a} by {
      assert g.order[0] == c && g.order[1] == a;
    }
    assert IsTopological(DependencyGraph(g), g.order);
    forall e | e in AllAsked(g) ensures e == Peek(c) {
    }
  }

  lemma PeekSpecs(c: ID, a: ID)
    requires PeekIDs(c, a)
    ensures Elems([c, a]) == {c, a}
    ensures var g := PeekGraph(c, a);
            && Elems(g.order) <= g.nodes.Keys
            && var specs := WiredSpecs(g, SeenIn(g));
            && specs.Keys == {c, a, INSTANCE}
            && specs[INSTANCE] == Spec(Instance, {}, Obj(map[]), [], [], [], [])
            && specs[c] == Spec(Collection, {INSTANCE}, Obj(map[]), [], [], [], [ForEach("name", LISTED)])
            && specs[a] == Spec(Resource, {c, INSTANCE}, Obj(map[]), [], [Peek(c)], [], [])
  {
    hide SeenIn, IsTopological, Consistent;
    var g := PeekGraph(c, a);
    PeekBuilt(c, a);
    BuiltKeys(g);
    SharingUnnoticedIff(g);
    UnsharedSpec(g, g.nodes[c]);
    UnsharedSpec(g, g.nodes[a]);
    UnsharedSpec(g, InstanceOf(g));
    assert Linked(g, g.nodes[a]) == {c, INSTANCE};
    assert Linked(g, g.nodes[c]) == {INSTANCE};
    assert Linked(g, InstanceOf(g)) == {};
  }

  /** Both items belong to the collection. */
  lemma PeekBelong(c: ID, a: ID, name: string)
    requires PeekIDs(c, a)
    ensures forall id :: Naming.BelongsTo(Naming.ComposedName(c, true, name), true, {c, a}, {c}, id) <==> id == c
  {
    hide Naming.BelongsTo, Naming.ComposedName, Naming.ValidID;
    forall id ensures Naming.BelongsTo(Naming.ComposedName(c, true, name), true, {c, a}, {c}, id) <==> id == c {
      Naming.EmittedBelongsToEmitter(c, true, name, {c, a}, {c}, id);
    }
  }

  /** The items may be listed in both orders. */
  lemma PeekGroups(c: ID, a: ID, x: Json, y: Json)
    requires PeekIDs(c, a) && HasIndex(x) && HasIndex(y)
    ensures Groups(PeekGraph(c, a), PeekRequest(c, x, y), map[c := [x, y]])
    ensures Groups(PeekGraph(c, a), PeekRequest(c, x, y), map[c := [y, x]])
  {
    hide Naming.BelongsTo, Naming.ValidID, HasIndex;
    var g, req := PeekGraph(c, a), PeekRequest(c, x, y);
    var p, q := Naming.ComposedName(c, true, "p"), Naming.ComposedName(c, true, "q");
    assert Collections(g) == {c} && g.nodes.Keys == {c, a};
    assert p != q by {
      assert p[|c| + 1] == 'p' && q[|c| + 1] == 'q';
    }
    PeekBelong(c, a, "p");
    PeekBelong(c, a, "q");
    PeekGrouped(req.composed, c, a, p, q, x, y);
    PeekGrouped(req.composed, c, a, q, p, y, x);
  }

  lemma PeekGrouped(composed: map<string, Json>, c: ID, a: ID, p: string, q: string, x: Json, y: Json)
    requires p != q && composed == map[p := x, q := y] && HasIndex(x) && HasIndex(y)
    requires forall id, name | name in {p, q} :: Naming.BelongsTo(name, true, {c, a}, {c}, id) <==> id == c
    ensures Naming.Grouped(composed, {c, a}, {c}, map[c := [x, y]], map[c := [p, q]])
  {
    hide Naming.BelongsTo, HasIndex;
  }

  /** The world of the example, with the items in some order. */
  ghost predicate PeekWorld(w: World, rank: map<ID, nat>, c: ID, a: ID, x: Json, items: seq<Json>) {
    && PeekIDs(c, a) && WellWired(w) && Ranked(w, rank) && w.eval == PeekOracle(c, x)
    && w.specs.Keys == {c, a, INSTANCE} && items != []
    && w.specs[INSTANCE] == Spec(Instance, {}, Obj(map[]), [], [], [], [])
    && w.specs[c] == Spec(Collection, {INSTANCE}, Obj(map[]), [], [], [], [ForEach("name", LISTED)])
    && w.specs[a] == Spec(Resource, {c, INSTANCE}, Obj(map[]), [], [Peek(c)], [], [])
    && w.observed.Keys == {INSTANCE, c} && w.observed[c] == items
  }

  lemma PeekPlain(w: World, rank: map<ID, nat>, c: ID, a: ID, x: Json, items: seq<Json>)
    requires PeekWorld(w, rank, c, a, x, items)
    ensures Downward(w, {c, INSTANCE}) && forall n | n in {c, INSTANCE} :: w.specs[n].includeWhen == []
  {
  }

  lemma ListedIsNot(c: ID)
    ensures LISTED.original != Peek(c).original
  {
    var s, t := LISTED.original, Peek(c).original;
    assert s[|s| - 1] == 's' && t[|t| - 1] == 'y';
  }

  /** The collection is resolved to nothing. */
  lemma PeekCollection(w: World, rank: map<ID, nat>, walk: Walk, s: State, c: ID, a: ID, x: Json, items: seq<Json>)
    requires PeekWorld(w, rank, c, a, x, items) && Picks(walk) && c !in s.desired && s.memory.cache == map[]
    ensures var s' := VisitNow(w, rank, walk, s, c);
            s'.ok == s.ok && s'.out == s.out && s'.desired == s.desired[c := []] && s'.memory.cache == map[Dim(c, 0) := Arr([])]
  {
    hide IgnoredNow, DependenciesFrom, Downward;
    PeekPlain(w, rank, c, a, x, items);
    Unconditional(w, rank, walk, s.memory, s.desired, c, {c, INSTANCE});
    var m := IgnoredNow(w, rank, walk, s.memory, s.desired, c).1;
    DependenciesPlain(w, rank, walk, m, s.desired, c, w.specs[c].deps, {c, INSTANCE});
    var next := DependenciesFrom(w, rank, walk, m, s.desired, c, w.specs[c].deps).1;
    PeekExpanded(w, rank, walk, next, c, a, x, items);
  }

  lemma PeekExpanded(w: World, rank: map<ID, nat>, walk: Walk, m: Memory, c: ID, a: ID, x: Json, items: seq<Json>)
    requires PeekWorld(w, rank, c, a, x, items) && Picks(walk) && m.cache == map[]
    ensures var (r, next) := ObjectsNow(w, walk, m, c); r == Done([]) && next.cache == map[Dim(c, 0) := Arr([])]
  {
    ListedIsNot(c);
    assert BaseFrom(w, m.cache, c, Originals([], false), 0, map[]) == (Done(map[]), m.cache);
    assert Look(w.eval, m.cache, Dim(c, 0), LISTED, NodeContext(w, c, DimensionRefs(w.specs[c].forEach))) ==
           (Value(Arr([])), map[Dim(c, 0) := Arr([])]);
    assert ForEachNow(w, m.cache, c) == (Done([]), map[Dim(c, 0) := Arr([])]);
    assert DistinctIdentities([]);
  }

  lemma PeekWired(w: World, rank: map<ID, nat>, c: ID, a: ID, x: Json, items: seq<Json>)
    requires PeekWorld(w, rank, c, a, x, items)
    ensures WellWired(w)
  {
  }

  lemma PeekReady(w: World, rank: map<ID, nat>, c: ID, a: ID, x: Json, items: seq<Json>, cache: Cache, desired: Desired)
    requires PeekWorld(w, rank, c, a, x, items) && c in desired && desired[c] == []
    ensures ObservedNow(w, cache, desired, c) == (IsReady, cache)
  {
  }

  lemma LookNew(eval: Oracle, cache: Cache, key: Key, e: Expr, ctx: Ctx)
    requires key !in cache
    ensures var r := eval(e.original, FilterContext(ctx, e.refs));
            Look(eval, cache, key, e, ctx) == (r, if r.Value? then cache[key := r.v] else cache)
  {
  }

  lemma PeekFirst(w: World, rank: map<ID, nat>, c: ID, a: ID, x: Json, items: seq<Json>, cache: Cache)
    requires PeekWorld(w, rank, c, a, x, items) && Text(Peek(c).original) !in cache
    ensures var v := Value(Bool(items[0] == x));
            Look(w.eval, cache, Text(Peek(c).original), Peek(c), NodeContext(w, a, NeededBy([Peek(c)]))) ==
            (v, cache[Text(Peek(c).original) := v.v])
  {
    hide Ranked, Look, WellWired, Naming.ValidID;
    PeekWired(w, rank, c, a, x, items);
    assert NeededBy([Peek(c)]) == {c};
    var ctx := NodeContext(w, a, {c});
    assert c in ctx && ctx[c] == Arr(items);
    var less := FilterContext(ctx, {c});
    assert c in less && less[c] == Arr(items);
    assert PeekOracle(c, x)(Peek(c).original, less) == Value(Bool(items[0] == x));
    assert Peek(c).refs == {c};
    assert w.eval(Peek(c).original, FilterContext(ctx, Peek(c).refs)) == Value(Bool(items[0] == x));
    LookNew(w.eval, cache, Text(Peek(c).original), Peek(c), ctx);
    assert NodeContext(w, a, NeededBy([Peek(c)])) == ctx;
  }

  /** The node is ignored unless the first item is `x`. */
  lemma PeekIgnored(w: World, rank: map<ID, nat>, walk: Walk, m: Memory, desired: Desired, c: ID, a: ID, x: Json, items: seq<Json>)
    requires PeekWorld(w, rank, c, a, x, items) && Picks(walk) && c in desired && desired[c] == []
    requires Text(Peek(c).original) !in m.cache
    ensures IgnoredNow(w, rank, walk, m, desired, a).0 == if items[0] == x then NotIgnored else Ignored
  {
    hide Look, ObservedNow, Downward, NodeContext, IgnoredFrom, RefsFrom, PeekOracle, WellWired;
    PeekWired(w, rank, c, a, x, items);
    PeekPlain(w, rank, c, a, x, items);
    UnconditionalDeps(w, rank, walk, m, desired, a, w.specs[a].deps, {c, INSTANCE});
    var next := IgnoredFrom(w, rank, walk, m, desired, a, w.specs[a].deps).1;
    assert NeededBy([Peek(c)]) - {INSTANCE} == {c};
    RefsStep(w, walk, next, desired, a, {c});
    assert walk(next.tick, {c}) == c;
    PeekReady(w, rank, c, a, x, items, next.cache, desired);
    assert {c} - {c} == {};
    RefsStep(w, walk, Memory(next.cache, next.tick + 1), desired, a, {});
    var m' := Memory(next.cache, next.tick + 1);
    assert RefsFrom(w, walk, next, desired, a, {c}) == (NotIgnored, m');
    PeekFirst(w, rank, c, a, x, items, next.cache);
    assert ConditionsFrom(w, m'.cache, a, 0).0 == if items[0] == x then NotIgnored else Ignored;
    assert ConditionsNow(w, walk, next, desired, a).0 == if items[0] == x then NotIgnored else Ignored;
  }

  lemma PeekVisit(w: World, rank: map<ID, nat>, walk: Walk, s: State, c: ID, a: ID, x: Json, items: seq<Json>)
    requires PeekWorld(w, rank, c, a, x, items) && Picks(walk) && c in s.desired && s.desired[c] == [] && a !in s.desired
    requires Text(Peek(c).original) !in s.memory.cache
    ensures var s' := VisitNow(w, rank, walk, s, a);
            s'.ok == s.ok && s'.out == if items[0] == x then s.out[a := Plain()] else s.out
  {
    hide IgnoredNow, DependenciesFrom, Downward, ObjectsNow, EmitFrom, ObservedNow;
    PeekPlain(w, rank, c, a, x, items);
    PeekIgnored(w, rank, walk, s.memory, s.desired, c, a, x, items);
    if items[0] == x {
      PeekReady(w, rank, c, a, x, items, IgnoredNow(w, rank, walk, s.memory, s.desired, a).1.cache, s.desired);
      PlainVisit(w, rank, walk, s, a, {c, INSTANCE});
    }
  }

  lemma PeekRun(w: World, rank: map<ID, nat>, walk: Walk, c: ID, a: ID, x: Json, items: seq<Json>)
    requires PeekWorld(w, rank, c, a, x, items) && Picks(walk)
    ensures (forall id | id in [c, a] :: id in w.specs)
    ensures var s := RunFrom(w, rank, walk, State(true, map[], map[], Memory(map[], 0)), [c, a], 0);
            s.ok && s.out == if items[0] == x then map[a := Plain()] else map[]
  {
    hide VisitNow;
    var s := State(true, map[], map[], Memory(map[], 0));
    PeekCollection(w, rank, walk, s, c, a, x, items);
    var s' := VisitNow(w, rank, walk, s, c);
    PeekVisit(w, rank, walk, s', c, a, x, items);
    var s'' := VisitNow(w, rank, walk, s', a);
    assert RunFrom(w, rank, walk, s'', [c, a], 2) == s'';
    assert RunFrom(w, rank, walk, s', [c, a], 1) == s'';
  }

  lemma PeekInWorld(c: ID, a: ID, x: Json, y: Json, items: seq<Json>, max: int)
    requires PeekIDs(c, a) && items in {[x, y], [y, x]} && HasIndex(x) && HasIndex(y)
    ensures var g, req := PeekGraph(c, a), PeekRequest(c, x, y);
            && Built(g) && Elems(g.order) <= g.nodes.Keys
            && PeekWorld(WorldFor(g, req, map[c := items], PeekOracle(c, x), max), Ranks(g), c, a, x, items)
  {
    hide IsTopological, Groups, WiredSpecs, SeenIn, WellWired, WorldFor, Ranks, Ranked, Built, PeekOracle, HasIndex;
    var g, req := PeekGraph(c, a), PeekRequest(c, x, y);
    PeekBuilt(c, a);
    BuiltKeys(g);
    PeekGroups(c, a, x, y);
    assert Provides(g, req.external);
    RanksOfGraph(g, req, map[c := items], PeekOracle(c, x), max);
    ObservedOf(g, req, map[c := items], PeekOracle(c, x), max);
    PeekSpecs(c, a);
  }

  lemma PeekReads(c: ID, x: Json)
    ensures Monotone(PeekOracle(c, x))
    ensures ReadsOnly(PeekOracle(c, x), Peek(c).original, {c}) && ReadsOnly(PeekOracle(c, x), LISTED.original, {INSTANCE})
  {
    ListedIsNot(c);
    var eval := PeekOracle(c, x);
    forall ctx ensures eval(Peek(c).original, ctx) == eval(Peek(c).original, OnlyThese(ctx, {c})) {
    }
  }

  lemma PeekRight(c: ID, a: ID, x: Json)
    requires PeekIDs(c, a)
    ensures Monotone(PeekOracle(c, x)) && RightReferences(PeekGraph(c, a), PeekOracle(c, x))
  {
    hide Monotone, ReadsOnly, PeekOracle, Linked, Naming.ValidID;
    var g, eval := PeekGraph(c, a), PeekOracle(c, x);
    PeekReads(c, x);
    assert INSTANCE in Linked(g, g.nodes[c]) && c in Linked(g, g.nodes[a]) by {
      PeekLinks(c, a);
    }
    assert RightNode(g, eval, g.nodes[c], c);
    assert RightNode(g, eval, g.nodes[a], a);
  }

  lemma PeekLinks(c: ID, a: ID)
    requires PeekIDs(c, a)
    ensures var g := PeekGraph(c, a); INSTANCE in Linked(g, g.nodes[c]) && c in Linked(g, g.nodes[a])
  {
  }

  /**
    One request, two outputs: a condition looks at the first item of a collection of which two different items are
    observed. The graph is built, its references are right and texts are not shared, and yet it depends on the order in
    which the map of observed resources is walked whether the node is emitted.
   */
  lemma OrderOfItemsShows(c: ID, a: ID, x: Json, y: Json, walk: Walk, max: int)
    requires PeekIDs(c, a) && x != y && HasIndex(x) && HasIndex(y) && Picks(walk)
    ensures var g, req, eval := PeekGraph(c, a), PeekRequest(c, x, y), PeekOracle(c, x);
            && Built(g) && Consistent(g) && Monotone(eval) && RightReferences(g, eval) && Elems(g.order) <= g.nodes.Keys
            && Groups(g, req, map[c := [x, y]]) && Groups(g, req, map[c := [y, x]])
            && RunsTo(g, req, map[c := [x, y]], eval, max, walk, map[], true, map[a := Plain()])
            && RunsTo(g, req, map[c := [y, x]], eval, max, walk, map[], true, map[])
  {
    hide IsTopological, Built, Consistent, Monotone, RightReferences, Groups, RunFrom, WorldFor, PeekOracle, HasIndex;
    PeekBuilt(c, a);
    PeekRight(c, a, x);
    PeekGroups(c, a, x, y);
    PeekRunsTo(c, a, x, y, [x, y], walk, max);
    PeekRunsTo(c, a, x, y, [y, x], walk, max);
  }

  lemma PeekRunsTo(c: ID, a: ID, x: Json, y: Json, items: seq<Json>, walk: Walk, max: int)
    requires PeekIDs(c, a) && items in {[x, y], [y, x]} && HasIndex(x) && HasIndex(y) && Picks(walk)
    ensures var g, req := PeekGraph(c, a), PeekRequest(c, x, y);
            && Elems(g.order) <= g.nodes.Keys
            && RunsTo(g, req, map[c := items], PeekOracle(c, x), max, walk, map[], true, if items[0] == x then map[a := Plain()] else map[])
  {
    hide IsTopological, Built, Groups, RunFrom, SelectFrom, WorldFor, FoundWorld, PeekOracle, WellWired, Ranks, Ranked, Picks, HasIndex;
    var g, req, eval := PeekGraph(c, a), PeekRequest(c, x, y), PeekOracle(c, x);
    PeekBuilt(c, a);
    PeekGroups(c, a, x, y);
    assert Provides(g, req.external);
    IsRunnable(g, req, map[c := items], eval, max);
    PeekInWorld(c, a, x, y, items, max);
    PeekSpecs(c, a);
    FoundSpecs(g, req, eval, max);
    NothingSelected(FoundWorld(g, req, eval, max), Ranks(g), walk, Beginning(map[]), g.order, 0);
    PeekRun(WorldFor(g, req, map[c := items], eval, max), Ranks(g), walk, c, a, x, items);
  }

  lemma FoundSpecs(g: ResourceGraph, req: Request, eval: Oracle, max: int)
    requires Elems(g.order) <= g.nodes.Keys
    ensures FoundWorld(g, req, eval, max).specs == WiredSpecs(g, SeenIn(g)) && FoundWorld(g, req, eval, max).eval == eval
  {
    hide WiredSpecs, SeenIn;
  }

  // ---- A state that is shared by a condition and a readyWhen expression. ----

  /** Observed to be ready, said of an external node by itself and by a condition. */
  function Up(b: ID): string {
    b + ".status.up"
  }

  /** Something is said of one node, and of two. */
  function There(id: ID): Expr {
    Expr(id + ".status.there", {id})
  }

  function Both(a: ID, b: ID): Expr {
    Expr(a + ".status == " + b + ".status || null == null", {a, b})
  }

  lemma TextsDiffer(b: ID, c: ID, x: ID)
    ensures Up(b) != There(c).original && Up(b) != Both(b, x).original && There(c).original != Both(b, x).original
    ensures ON.original != There(c).original && ON.original != Both(b, x).original
  {
    var up, there, both := Up(b), There(c).original, Both(b, x).original;
    assert up[|up| - 1] == 'p' && there[|there| - 1] == 'e' && both[|both| - 1] == 'l' && ON.original[|ON.original| - 1] == 'n';
  }

  const ON := Expr("schema.spec.on", {INSTANCE})

  datatype SharedIDs = SharedIDs(b: ID, x: ID, d: ID, a: ID) {
    predicate Valid() {
      && b !in {x, d, a, INSTANCE} && x !in {d, a, INSTANCE} && d !in {a, INSTANCE} && a != INSTANCE
      && Naming.ValidID(x) && Naming.ValidID(d) && Naming.ValidID(a) && Up(b) != ON.original
    }
  }

  /**
    An external node `b` with a readyWhen expression, a resource `d` with a condition on `b` and `x`, and a resource `a` that is
    included if `b` is ready, in the same words, and the instance says so.
   */
  function SharedGraph(n: SharedIDs): ResourceGraph {
    ResourceGraph([n.b, n.x, n.d, n.a],
                  map[n.b := PlainNode(External, []).(readyWhen := [Expr(Up(n.b), {})]),
                      n.x := PlainNode(Resource, []),
                      n.d := PlainNode(Resource, [n.b, n.x]).(includeWhen := [Both(n.b, n.x)]),
                      n.a := PlainNode(Resource, [n.b]).(includeWhen := [Expr(Up(n.b), {n.b}), ON])],
                  PlainNode(Instance, []))
  }

  /** Both are true as soon as the node that they look at is there. */
  function SharedOracle(b: ID): Oracle {
    (text: string, ctx: Ctx) =>
      if (if text == Up(b) then b in ctx else INSTANCE in ctx) then Value(Bool(true)) else Pending
  }

  /** The external node has been found; nothing else is observed. */
  function SharedRequest(b: ID, obj: Json): Request {
    Request(Null, map[b := [obj]], map[])
  }

  lemma SharedBuilt(n: SharedIDs)
    requires n.Valid()
    ensures Built(SharedGraph(n)) && !Consistent(SharedGraph(n))
    ensures Elems([n.b, n.x, n.d, n.a]) == {n.b, n.x, n.d, n.a}
  {
    var g := SharedGraph(n);
    hide Naming.ValidID, IsTopological, Consistent;
    SharedTopological(n, DependencyGraph(g)) by {
      assert Elems(g.nodes[n.b].dependencies) == {} && Elems(g.nodes[n.x].dependencies) == {};
      assert Elems(g.nodes[n.d].dependencies) == {n.b, n.x} by {
        assert g.nodes[n.d].dependencies[0] == n.b && g.nodes[n.d].dependencies[1] == n.x;
      }
      assert Elems(g.nodes[n.a].dependencies) == {n.b} by {
        assert g.nodes[n.a].dependencies[0] == n.b;
      }
    }
    SharedTwice(n);
  }

  lemma SharedTwice(n: SharedIDs)
    requires n.Valid()
    ensures !Consistent(SharedGraph(n))
  {
    hide Naming.ValidID;
    var g := SharedGraph(n);
    var e, f := Expr(Up(n.b), {}), Expr(Up(n.b), {n.b});
    assert g.nodes[n.b].readyWhen[0] == e && g.nodes[n.a].includeWhen[0] == f;
    assert e in Asked(g.nodes[n.b]) && f in Asked(g.nodes[n.a]);
    assert e in AllAsked(g) && f in AllAsked(g);
  }

  lemma SharedTopological(n: SharedIDs, h: Graph)
    requires n.Valid()
    requires h == map[n.b := {}, n.x := {}, n.d := {n.b, n.x}, n.a := {n.b}]
    ensures IsTopological(h, [n.b, n.x, n.d, n.a]) && Elems([n.b, n.x, n.d, n.a]) == {n.b, n.x, n.d, n.a}
  {
    var s := [n.b, n.x, n.d, n.a];
    assert s[0] == n.b && s[1] == n.x && s[2] == n.d && s[3] == n.a;
    assert s[..2][0] == n.b && s[..2][1] == n.x && s[..3][0] == n.b;
  }

  /** The first state with the text has no references, and so the condition has none. */
  predicate AreShared(specs: map<ID, Spec>, n: SharedIDs) {
    && specs.Keys == {n.b, n.x, n.d, n.a, INSTANCE}
    && specs[INSTANCE] == Spec(Instance, {}, Obj(map[]), [], [], [], [])
    && specs[n.b] == Spec(External, {INSTANCE}, Obj(map[]), [], [], [Expr(Up(n.b), {})], [])
    && specs[n.x] == Spec(Resource, {INSTANCE}, Obj(map[]), [], [], [], [])
    && specs[n.d] == Spec(Resource, {n.b, n.x, INSTANCE}, Obj(map[]), [], [Both(n.b, n.x)], [], [])
    && specs[n.a] == Spec(Resource, {n.b, INSTANCE}, Obj(map[]), [], [Expr(Up(n.b), {}), ON], [], [])
  }

  lemma SharedSpecs(n: SharedIDs)
    requires n.Valid()
    ensures Elems([n.b, n.x, n.d, n.a]) == {n.b, n.x, n.d, n.a}
    ensures var g := SharedGraph(n);
            && Elems(g.order) <= g.nodes.Keys
            && AreShared(WiredSpecs(g, SeenIn(g)), n)
  {
    hide SeenIn, IsTopological, Consistent, Naming.ValidID, Asked, Both;
    var g := SharedGraph(n);
    SharedBuilt(n);
    SharedSeen(n);
    TextsDiffer(n.b, n.b, n.x);
    var seen := SeenIn(g);
    var up := Expr(Up(n.b), {});
    assert PickAll(seen, []) == [];
    assert PickAll(seen, [up]) == [up];
    assert PickAll(seen, [Expr(Up(n.b), {n.b}), ON]) == [up, ON];
    assert PickAll(seen, [Both(n.b, n.x)]) == [Both(n.b, n.x)];
    assert PickVars(seen, []) == [];
    assert Linked(g, g.nodes[n.a]) == {n.b, INSTANCE};
    assert Linked(g, g.nodes[n.d]) == {n.b, n.x, INSTANCE};
    assert Linked(g, g.nodes[n.x]) == {INSTANCE};
    assert Linked(g, g.nodes[n.b]) == {INSTANCE};
    assert Linked(g, InstanceOf(g)) == {};
  }

  lemma SharedSeen(n: SharedIDs)
    requires n.Valid() && Elems(SharedGraph(n).order) <= SharedGraph(n).nodes.Keys
    ensures SeenIn(SharedGraph(n)) ==
            map[Up(n.b) := Expr(Up(n.b), {}), Both(n.b, n.x).original := Both(n.b, n.x), ON.original := ON]
  {
    hide Naming.ValidID, RememberAll, Asked, AskedBefore;
    var g := SharedGraph(n);
    var up, again, both := Expr(Up(n.b), {}), Expr(Up(n.b), {n.b}), Both(n.b, n.x);
    TextsDiffer(n.b, n.b, n.x);
    SharedAsked(n);
    assert [up, both, again, ON] + [] == [up, both, again, ON];
    RememberFour(up, both, again, ON);
  }

  lemma SharedAsked(n: SharedIDs)
    requires n.Valid() && Elems(SharedGraph(n).order) <= SharedGraph(n).nodes.Keys
    ensures var g := SharedGraph(n);
            AskedBefore(g, |g.order|) == [Expr(Up(n.b), {}), Both(n.b, n.x), Expr(Up(n.b), {n.b}), ON]
  {
    var g := SharedGraph(n);
    var up, again, both := Expr(Up(n.b), {}), Expr(Up(n.b), {n.b}), Both(n.b, n.x);
    hide Naming.ValidID, Both;
    assert Asked(g.nodes[n.b]) == [up] && Asked(g.nodes[n.x]) == [] && Asked(g.nodes[n.d]) == [both] && Asked(g.nodes[n.a]) == [again, ON];
    hide Asked;
    assert AskedBefore(g, 1) == [up] by {
      assert AskedBefore(g, 0) == [];
    }
    assert AskedBefore(g, 2) == [up];
    assert AskedBefore(g, 3) == [up, both];
  }

  /** Of four expressions two have the same text. */
  lemma RememberFour(a: Expr, b: Expr, c: Expr, d: Expr)
    requires a.original == c.original && a.original != b.original && a.original != d.original && b.original != d.original
    ensures RememberAll(map[], [a, b, c, d]) == map[a.original := a, b.original := b, d.original := d]
  {
    var all := [a, b, c, d];
    assert all[..3] == [a, b, c] && all[..3][..2] == [a, b] && [a, b][..1] == [a] && [a][..0] == [];
    assert RememberAll(map[], [a]) == map[a.original := a];
    assert RememberAll(map[], [a, b]) == map[a.original := a, b.original := b];
    assert RememberAll(map[], all[..3]) == map[a.original := a, b.original := b];
    assert RememberAll(map[], all) == Remember(RememberAll(map[], all[..3]), d);
  }

  ghost predicate SharedWorld(w: World, rank: map<ID, nat>, n: SharedIDs, obj: Json) {
    && n.Valid() && WellWired(w) && Ranked(w, rank) && w.eval == SharedOracle(n.b) && AreShared(w.specs, n)
    && w.observed.Keys == {INSTANCE, n.b} && w.observed[n.b] == [obj]
  }

  function Unconditionals(n: SharedIDs): set<ID> {
    {n.b, n.x, INSTANCE}
  }

  lemma SharedPlain(w: World, rank: map<ID, nat>, n: SharedIDs, obj: Json)
    requires SharedWorld(w, rank, n, obj)
    ensures WellWired(w) && Ranked(w, rank) && Unconditionals(n) <= w.specs.Keys && Downward(w, Unconditionals(n))
    ensures forall m | m in Unconditionals(n) :: w.specs[m].includeWhen == []
  {
  }

  /** The external node is ready; whoever asks first has the value cached. */
  lemma SharedReady(w: World, rank: map<ID, nat>, n: SharedIDs, obj: Json, cache: Cache, desired: Desired)
    requires SharedWorld(w, rank, n, obj)
    requires Text(Up(n.b)) in cache ==> cache[Text(Up(n.b))] == Bool(true)
    ensures ObservedNow(w, cache, desired, n.b) == (IsReady, cache[Text(Up(n.b)) := Bool(true)])
  {
    var up, ctx := Expr(Up(n.b), {}), map[n.b := obj];
    assert Observed(w, n.b)[0] == obj;
    assert FilterContext(ctx, up.refs) == ctx;
    assert Look(w.eval, cache, Text(Up(n.b)), up, ctx) == (Value(Bool(true)), cache[Text(Up(n.b)) := Bool(true)]);
    assert SingleFrom(w, cache, n.b, 0) == (IsReady, cache[Text(Up(n.b)) := Bool(true)]);
  }

  /** A walk that begins with `k` whenever it can. */
  ghost function First(k: string): Walk {
    (tick: nat, keys: set<string>) => if k in keys then k else Any(keys)
  }

  lemma FirstPicks(k: string)
    ensures Picks(First(k))
  {
  }

  /** The external node's readiness is evaluated only if it is looked at before the node that is waited for. */
  lemma SharedRefs(w: World, rank: map<ID, nat>, k: ID, m: Memory, desired: Desired, n: SharedIDs, obj: Json)
    requires SharedWorld(w, rank, n, obj) && k in {n.b, n.x} && m.cache == map[]
    ensures Picks(First(k))
    ensures var (r, next) := RefsFrom(w, First(k), m, desired, n.d, {n.b, n.x});
            r == Undecided(true) && next.cache == if k == n.b then map[Text(Up(n.b)) := Bool(true)] else map[]
  {
    hide ObservedNow, First, RefsFrom, Ranked, Naming.ValidID;
    FirstPicks(k);
    FirstIs(k, {n.b, n.x}, m.tick);
    RefsStep(w, First(k), m, desired, n.d, {n.b, n.x});
    if k == n.b {
      SharedReady(w, rank, n, obj, m.cache, desired);
      var next := Memory(ObservedNow(w, m.cache, desired, n.b).1, m.tick + 1);
      assert {n.b, n.x} - {n.b} == {n.x};
      RefsStep(w, First(k), next, desired, n.d, {n.x});
      assert First(k)(next.tick, {n.x}) == n.x;
      SharedUnobserved(w, rank, n, obj, next.cache, desired);
    } else {
      SharedUnobserved(w, rank, n, obj, m.cache, desired);
    }
  }

  lemma FirstIs(k: string, keys: set<string>, tick: nat)
    requires k in keys
    ensures First(k)(tick, keys) == k
  {
  }

  lemma SharedUnobserved(w: World, rank: map<ID, nat>, n: SharedIDs, obj: Json, cache: Cache, desired: Desired)
    requires SharedWorld(w, rank, n, obj)
    ensures ObservedNow(w, cache, desired, n.x) == (Waiting, cache)
  {
  }

  /** Without the value, the condition cannot be decided, and the node that it is asked for is not told why. */
  lemma SharedConditions(w: World, rank: map<ID, nat>, n: SharedIDs, obj: Json, cache: Cache)
    requires SharedWorld(w, rank, n, obj) && cache in {map[], map[Text(Up(n.b)) := Bool(true)]}
    ensures var (r, next) := ConditionsFrom(w, cache, n.a, 0);
            if cache == map[] then r == Undecided(false)
            else r == NotIgnored && Text(Up(n.b)) in next && next[Text(Up(n.b))] == Bool(true)
  {
    hide Naming.ValidID, Ranked;
    var up, ctx := Expr(Up(n.b), {}), NodeContext(w, n.a, {INSTANCE});
    assert NeededBy([up, ON]) == {INSTANCE};
    assert ctx.Keys == {INSTANCE} && FilterContext(ctx, up.refs) == ctx && FilterContext(ctx, ON.refs) == ctx;
    if cache == map[] {
      LookNew(w.eval, cache, Text(Up(n.b)), up, ctx);
    } else {
      assert Look(w.eval, cache, Text(Up(n.b)), up, ctx).0 == Value(Bool(true));
      var c := Look(w.eval, cache, Text(Up(n.b)), up, ctx).1;
      assert c == cache;
      LookNew(w.eval, c, Text(ON.original), ON, ctx);
      assert w.eval(ON.original, ctx) == Value(Bool(true));
      assert ConditionsFrom(w, c[Text(ON.original) := Bool(true)], n.a, 2).0 == NotIgnored;
    }
  }

  lemma SharedIgnored(w: World, rank: map<ID, nat>, walk: Walk, m: Memory, desired: Desired, n: SharedIDs, obj: Json)
    requires SharedWorld(w, rank, n, obj) && Picks(walk) && m.cache in {map[], map[Text(Up(n.b)) := Bool(true)]}
    ensures var (r, next) := IgnoredNow(w, rank, walk, m, desired, n.a);
            if m.cache == map[] then r == Undecided(false)
            else r == NotIgnored && Text(Up(n.b)) in next.cache && next.cache[Text(Up(n.b))] == Bool(true)
  {
    hide IgnoredFrom, Ranked, Downward, WellWired, ConditionsFrom, Naming.ValidID;
    SharedPlain(w, rank, n, obj);
    UnconditionalDeps(w, rank, walk, m, desired, n.a, w.specs[n.a].deps, Unconditionals(n));
    var next := IgnoredFrom(w, rank, walk, m, desired, n.a, w.specs[n.a].deps).1;
    assert NeededBy(w.specs[n.a].includeWhen) - {INSTANCE} == {};
    SharedConditions(w, rank, n, obj, next.cache);
    assert ConditionsNow(w, walk, next, desired, n.a).0 == ConditionsFrom(w, next.cache, n.a, 0).0;
  }

  /** The last node is emitted if the value is there. */
  lemma SharedLast(w: World, rank: map<ID, nat>, walk: Walk, s: State, n: SharedIDs, obj: Json)
    requires SharedWorld(w, rank, n, obj) && Picks(walk) && s.memory.cache in {map[], map[Text(Up(n.b)) := Bool(true)]}
    requires n.a !in s.desired
    ensures var s' := VisitNow(w, rank, walk, s, n.a);
            && s'.ok == s.ok
            && s'.out == if s.memory.cache == map[] then s.out else s.out[n.a := Plain()]
  {
    hide IgnoredNow, ResolveNow, EmitFrom, ObservedNow, Downward, WellWired, Ranked, Naming.ValidID;
    SharedPlain(w, rank, n, obj);
    SharedIgnored(w, rank, walk, s.memory, s.desired, n, obj);
    if s.memory.cache != map[] {
      var m := IgnoredNow(w, rank, walk, s.memory, s.desired, n.a).1;
      SharedReady(w, rank, n, obj, m.cache, s.desired);
      assert m.cache[Text(Up(n.b)) := Bool(true)] == m.cache;
      PlainVisit(w, rank, walk, s, n.a, Unconditionals(n));
    }
  }

  /** The node in front of it is not resolved, but may have evaluated the value. */
  lemma SharedThird(w: World, rank: map<ID, nat>, k: ID, s: State, n: SharedIDs, obj: Json)
    requires SharedWorld(w, rank, n, obj) && k in {n.b, n.x} && s.memory.cache == map[] && n.d !in s.desired
    ensures Picks(First(k))
    ensures var s' := VisitNow(w, rank, First(k), s, n.d);
            && s'.ok == s.ok && s'.out == s.out && s'.desired == s.desired
            && s'.memory.cache == if k == n.b then map[Text(Up(n.b)) := Bool(true)] else map[]
  {
    hide IgnoredFrom, RefsFrom, ResolveNow, EmitFrom, Downward, WellWired, Ranked, First, Naming.ValidID;
    FirstPicks(k);
    SharedPlain(w, rank, n, obj);
    UnconditionalDeps(w, rank, First(k), s.memory, s.desired, n.d, w.specs[n.d].deps, Unconditionals(n));
    assert NeededBy([Both(n.b, n.x)]) - {INSTANCE} == {n.b, n.x};
    SharedRefs(w, rank, k, IgnoredFrom(w, rank, First(k), s.memory, s.desired, n.d, w.specs[n.d].deps).1, s.desired, n, obj);
  }

  lemma SharedSecond(w: World, rank: map<ID, nat>, walk: Walk, s: State, n: SharedIDs, obj: Json)
    requires SharedWorld(w, rank, n, obj) && Picks(walk) && n.x !in s.desired
    ensures var s' := VisitNow(w, rank, walk, s, n.x);
            && s'.ok == s.ok && s'.desired.Keys == s.desired.Keys + {n.x} && s'.memory.cache == s.memory.cache
            && s'.out == s.out[n.x := Plain()]
  {
    hide IgnoredNow, VisitNow, ObservedNow, Downward, WellWired, Ranked, Naming.ValidID;
    SharedPlain(w, rank, n, obj);
    Unconditional(w, rank, walk, s.memory, s.desired, n.x, Unconditionals(n));
    PlainVisit(w, rank, walk, s, n.x, Unconditionals(n));
  }

  lemma SharedRun(w: World, rank: map<ID, nat>, k: ID, n: SharedIDs, obj: Json)
    requires SharedWorld(w, rank, n, obj) && k in {n.b, n.x}
    ensures Picks(First(k)) && forall id | id in [n.b, n.x, n.d, n.a] :: id in w.specs
    ensures var s := RunFrom(w, rank, First(k), State(true, map[], map[], Memory(map[], 0)), [n.b, n.x, n.d, n.a], 0);
            s.ok && s.out == if k == n.b then map[n.x := Plain(), n.a := Plain()] else map[n.x := Plain()]
  {
    hide IgnoredNow, First, WellWired, Ranked, Naming.ValidID, ResolveNow, EmitFrom;
    FirstPicks(k);
    SharedPlain(w, rank, n, obj);
    var order := [n.b, n.x, n.d, n.a];
    var s0 := State(true, map[], map[], Memory(map[], 0));
    assert VisitNow(w, rank, First(k), s0, n.b) == s0;
    hide VisitNow;
    SharedSecond(w, rank, First(k), s0, n, obj);
    var s2 := VisitNow(w, rank, First(k), s0, n.x);
    SharedThird(w, rank, k, s2, n, obj);
    var s3 := VisitNow(w, rank, First(k), s2, n.d);
    assert k == n.b ==> Text(Up(n.b)) in s3.memory.cache;
    SharedLast(w, rank, First(k), s3, n, obj);
    var s4 := VisitNow(w, rank, First(k), s3, n.a);
    assert RunFrom(w, rank, First(k), s4, order, 4) == s4;
    assert RunFrom(w, rank, First(k), s3, order, 3) == s4;
    assert RunFrom(w, rank, First(k), s2, order, 2) == s4;
    assert RunFrom(w, rank, First(k), s0, order, 1) == s4;
    assert RunFrom(w, rank, First(k), s0, order, 0) == s4;
    assert s2.out == map[n.x := Plain()];
  }

  lemma SharedGroups(n: SharedIDs, obj: Json)
    requires n.Valid()
    ensures Groups(SharedGraph(n), SharedRequest(n.b, obj), map[]) && Provides(SharedGraph(n), SharedRequest(n.b, obj).external)
  {
    hide Naming.ValidID;
    var g, req := SharedGraph(n), SharedRequest(n.b, obj);
    assert Naming.Grouped(req.composed, g.nodes.Keys, Collections(g), map[], map[]);
  }

  lemma SharedInWorld(n: SharedIDs, obj: Json, max: int)
    requires n.Valid()
    ensures var g, req := SharedGraph(n), SharedRequest(n.b, obj);
            && Built(g) && Elems(g.order) <= g.nodes.Keys
            && SharedWorld(WorldFor(g, req, map[], SharedOracle(n.b), max), Ranks(g), n, obj)
  {
    hide IsTopological, Groups, Provides, NotEmpty, WiredSpecs, SeenIn, WellWired, WorldFor, Ranks, Ranked, Built, SharedOracle, Naming.ValidID, Up;
    hide AreShared, SharedGraph;
    var g, req := SharedGraph(n), SharedRequest(n.b, obj);
    SharedBuilt(n);
    BuiltKeys(g);
    SharedGroups(n, obj);
    RanksOfGraph(g, req, map[], SharedOracle(n.b), max);
    ObservedOf(g, req, map[], SharedOracle(n.b), max);
    SharedSpecs(n);
    SharedObserved(n, obj);
  }

  lemma SharedObserved(n: SharedIDs, obj: Json)
    ensures map[INSTANCE := [Null]] + NotEmpty(SharedRequest(n.b, obj).external) + map[] == map[INSTANCE := [Null], n.b := [obj]]
  {
  }

  lemma SharedMonotone(b: ID)
    ensures Monotone(SharedOracle(b))
  {
  }

  /**
    One request, two outputs, and nothing but the order in which a node's dependencies are walked is different: if
    the external node is looked at before the one that is waited for, its readiness is cached, and the condition that
    shares the state has a value; otherwise it has none in the context of its own node, whose needed references do
    not name the external node.
   */
  lemma SharedStateShows(n: SharedIDs, obj: Json, max: int)
    requires n.Valid()
    ensures var g, eval := SharedGraph(n), SharedOracle(n.b);
            && Built(g) && !Consistent(g) && Monotone(eval) && Elems(g.order) <= g.nodes.Keys
            && Groups(g, SharedRequest(n.b, obj), map[]) && Picks(First(n.b)) && Picks(First(n.x))
            && RunsTo(g, SharedRequest(n.b, obj), map[], eval, max, First(n.b), map[], true, map[n.x := Plain(), n.a := Plain()])
            && RunsTo(g, SharedRequest(n.b, obj), map[], eval, max, First(n.x), map[], true, map[n.x := Plain()])
  {
    hide IsTopological, Built, Consistent, Monotone, Groups, RunFrom, WorldFor, SharedOracle, First, Plain, Naming.ValidID;
    SharedBuilt(n);
    SharedGroups(n, obj);
    SharedMonotone(n.b);
    SharedRunsTo(n, obj, max, n.b);
    SharedRunsTo(n, obj, max, n.x);
  }

  lemma SharedRunsTo(n: SharedIDs, obj: Json, max: int, k: ID)
    requires n.Valid() && k in {n.b, n.x}
    ensures var g := SharedGraph(n);
            && Elems(g.order) <= g.nodes.Keys && Picks(First(k))
            && RunsTo(g, SharedRequest(n.b, obj), map[], SharedOracle(n.b), max, First(k), map[], true,
                      if k == n.b then map[n.x := Plain(), n.a := Plain()] else map[n.x := Plain()])
  {
    hide IsTopological, Built, Groups, RunFrom, SelectFrom, WorldFor, FoundWorld, SharedOracle, WellWired, Ranks, Ranked, First, Plain;
    hide Naming.ValidID, SharedRequest, Provides;
    var g, req, eval := SharedGraph(n), SharedRequest(n.b, obj), SharedOracle(n.b);
    SharedBuilt(n);
    SharedGroups(n, obj);
    IsRunnable(g, req, map[], eval, max);
    SharedInWorld(n, obj, max);
    SharedSelected(n, obj, max, k);
    SharedRun(WorldFor(g, req, map[], eval, max), Ranks(g), k, n, obj);
  }

  lemma SharedSelected(n: SharedIDs, obj: Json, max: int, k: ID)
    requires n.Valid()
    ensures var g := SharedGraph(n);
            && Elems(g.order) <= g.nodes.Keys && Picks(First(k))
            && var u := FoundWorld(g, SharedRequest(n.b, obj), SharedOracle(n.b), max);
               Runnable(g, u) && Selected(g, u, First(k), map[]) == Beginning(map[])
  {
    hide IsTopological, Built, Groups, SelectFrom, WorldFor, FoundWorld, SharedOracle, WellWired, Ranks, Ranked, First;
    hide Naming.ValidID, SharedRequest, Provides;
    var g, req, eval := SharedGraph(n), SharedRequest(n.b, obj), SharedOracle(n.b);
    SharedBuilt(n);
    SharedGroups(n, obj);
    IsRunnable(g, req, map[], eval, max);
    SharedSpecs(n);
    FoundSpecs(g, req, eval, max);
    FirstPicks(k);
    NothingSelected(FoundWorld(g, req, eval, max), Ranks(g), First(k), Beginning(map[]), g.order, 0);
  }

  /** There are such nodes. */
  lemma ExamplesExist()
    ensures SharedIDs("vpc", "role", "policy", "subnet").Valid() && PeekIDs("subnets", "vpc")
    ensures exists x, y :: x != y && HasIndex(x) && HasIndex(y)
  {
    TwoItems();
    assert "subnets"[0] != "vpc"[0] && "vpc"[0] != INSTANCE[0] && "subnets"[1] != INSTANCE[1];
    assert Naming.ValidID("subnets") && Naming.ValidID("vpc");
    var n := SharedIDs("vpc", "role", "policy", "subnet");
    assert n.b[0] != n.x[0] && n.b[0] != n.d[0] && n.b[0] != n.a[0] && n.b[0] != INSTANCE[0];
    assert n.x[0] != n.d[0] && n.x[0] != n.a[0] && n.x[0] != INSTANCE[0] && n.d[0] != n.a[0] && n.d[0] != INSTANCE[0];
    assert n.a[1] != INSTANCE[1];
    assert Up(n.b)[0] == 'v' && ON.original[0] == 's';
    assert Naming.ValidID(n.x) && Naming.ValidID(n.d) && Naming.ValidID(n.a);
  }

  lemma TwoItems()
    ensures exists x, y :: x != y && HasIndex(x) && HasIndex(y)
  {
    hide WithCollectionIndex, HasIndex, LabelPath;
    var x, y := WithCollectionIndex(Obj(map[]), 0), WithCollectionIndex(Obj(map[]), 1);
    IndexLabelled(Obj(map[]), 0);
    IndexLabelled(Obj(map[]), 1);
    assert Text.Itoa(0) == "0" && Text.Itoa(1) == "1";
    assert "0"[0] != "1"[0];
    assert x != y;
  }
}
