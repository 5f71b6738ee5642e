/** What asking for external nodes between recording what is observed can do: two small graphs. */
module SelectorExamples {
  import opened Sets
  import opened Trees
  import opened Graphs
  import opened Resolver
  import opened Objects
  import opened World
  import opened Adequacy
  import opened Reconcile
  import opened Faults
  import opened Wiring
  import opened Walks
  import opened Selectors
  import opened Sharing
  import opened Extraction
  import opened Reconciliations
  import opened Examples
  import Naming

  // ---- An error that is not for want of data. ----

  const SELECTED := Obj(map["metadata" := Obj(map["selector" := Obj(map[])])])

  /** A resource that is included if the instance says so, and an external collection with a condition on it. */
  function ObstacleGraph(d: ID, c: ID): ResourceGraph {
    ResourceGraph([d, c],
                  map[d := PlainNode(Resource, []).(includeWhen := [ON]),
                      c := PlainNode(ExternalCollection, [d]).(template := SELECTED, includeWhen := [There(d)])],
                  PlainNode(Instance, []))
  }

  predicate ObstacleIDs(d: ID, c: ID) {
    Naming.ValidID(d) && c != d && INSTANCE !in {c, d}
  }

  /** Nothing is there yet. */
  function Nothing(): Oracle {
    (text: string, ctx: Ctx) => Pending
  }

  const EMPTY := Request(Null, map[], map[])

  lemma ObstacleBuilt(d: ID, c: ID)
    requires ObstacleIDs(d, c)
    ensures var g := ObstacleGraph(d, c); Built(g) && Consistent(g) && Elems(g.order) == {d, c} == g.nodes.Keys
    ensures Groups(ObstacleGraph(d, c), EMPTY, map[]) && Provides(ObstacleGraph(d, c), EMPTY.external)
  {
    hide Naming.ValidID;
    var g := ObstacleGraph(d, c);
    assert g.order[..0] == [] && g.order[..1] == [d];
    assert Elems(g.order) == {d, c} by {
      assert g.order[0] == d && g.order[1] == c;
    }
    assert Elems(g.nodes[c].dependencies) == {d} by {
      assert g.nodes[c].dependencies[0] == d;
    }
    assert IsTopological(DependencyGraph(g), g.order);
    TextsDiffer(d, d, d);
    forall e | e in AllAsked(g) ensures e in {ON, There(d)} {
    }
    assert Naming.Grouped(EMPTY.composed, g.nodes.Keys, Collections(g), map[], map[]);
  }

  /** The world of the example, whatever is observed. */
  ghost predicate ObstacleWorld(w: World, d: ID, c: ID) {
    && ObstacleIDs(d, c) && WellWired(w) && w.eval == Nothing() && w.specs.Keys == {d, c, INSTANCE}
    && w.specs[INSTANCE] == Spec(Instance, {}, Obj(map[]), [], [], [], [])
    && w.specs[d] == Spec(Resource, {INSTANCE}, Obj(map[]), [], [ON], [], [])
    && w.specs[c] == Spec(ExternalCollection, {d, INSTANCE}, SELECTED, [], [There(d)], [], [])
  }

  lemma ObstacleSpecs(d: ID, c: ID, max: int)
    requires ObstacleIDs(d, c)
    ensures var g := ObstacleGraph(d, c);
            && Elems(g.order) <= g.nodes.Keys
            && Runnable(g, FoundWorld(g, EMPTY, Nothing(), max)) && Runnable(g, WorldFor(g, EMPTY, map[], Nothing(), max))
            && ObstacleWorld(FoundWorld(g, EMPTY, Nothing(), max), d, c)
            && ObstacleWorld(WorldFor(g, EMPTY, map[], Nothing(), max), d, c)
  {
    hide SeenIn, IsTopological, Consistent, Groups, WorldFor, FoundWorld, Ranks, Ranked, WellWired, Naming.ValidID;
    var g := ObstacleGraph(d, c);
    ObstacleBuilt(d, c);
    SharingUnnoticedIff(g);
    UnsharedSpec(g, g.nodes[d]);
    UnsharedSpec(g, g.nodes[c]);
    UnsharedSpec(g, InstanceOf(g));
    assert Linked(g, g.nodes[c]) == {d, INSTANCE};
    assert Linked(g, g.nodes[d]) == {INSTANCE};
    assert Linked(g, InstanceOf(g)) == {};
    IsRunnable(g, EMPTY, map[], Nothing(), max);
    FoundSpecs(g, EMPTY, Nothing(), max);
    ObservedOf(g, EMPTY, map[], Nothing(), max);
  }

  /** Whatever the walk, the condition cannot be decided, and the error is not one of missing data. */
  lemma ObstacleUndecided(w: World, rank: map<ID, nat>, walk: Walk, m: Memory, desired: Desired, d: ID, c: ID)
    requires ObstacleWorld(w, d, c) && Picks(walk) && Ranked(w, rank) && m.cache == map[]
    ensures IgnoredNow(w, rank, walk, m, desired, d).0 == Undecided(false)
  {
    hide Ranked, Naming.ValidID;
    UnconditionalDeps(w, rank, walk, m, desired, d, {INSTANCE}, {INSTANCE});
    assert NeededBy([ON]) == {INSTANCE};
    assert NeededBy([ON]) - {INSTANCE} == {};
    assert ON.refs - {INSTANCE} == {};
  }

  lemma ObstacleFails(w: World, rank: map<ID, nat>, walk: Walk, s: State, d: ID, c: ID)
    requires ObstacleWorld(w, d, c) && Picks(walk) && Ranked(w, rank) && s.memory.cache == map[] && s.desired == map[] && s.ok
    ensures !SelectFrom(w, rank, walk, s, [d, c], 0).ok
  {
    hide Ranked, Naming.ValidID, IgnoredNow, ObjectsNow;
    ObstacleDependencies(w, rank, walk, s.memory, d, c, {d, INSTANCE});
    assert SelectNow(w, rank, walk, s, d) == s;
    var e := SelectNow(w, rank, walk, s, c);
    assert !e.ok;
    assert SelectFrom(w, rank, walk, e, [d, c], 2) == e;
    assert SelectFrom(w, rank, walk, s, [d, c], 1) == e;
  }

  lemma {:induction false} ObstacleDependencies(w: World, rank: map<ID, nat>, walk: Walk, m: Memory, d: ID, c: ID, todo: set<ID>)
    requires ObstacleWorld(w, d, c) && Picks(walk) && Ranked(w, rank) && m.cache == map[] && d in todo && todo <= {d, INSTANCE}
    ensures DependenciesFrom(w, rank, walk, m, map[], c, todo).0 == NotCheckable(false)
    decreases todo
  {
    hide Ranked, Naming.ValidID, IgnoredNow;
    var k := walk(m.tick, todo);
    if k == INSTANCE {
      ObstacleDependencies(w, rank, walk, Memory(m.cache, m.tick + 1), d, c, todo - {k});
    } else {
      ObstacleUndecided(w, rank, walk, Memory(m.cache, m.tick + 1), map[], d, c);
    }
  }

  /** Where no expression is ever evaluated to anything and no template has fields, nothing is at fault. */
  lemma NothingFaultless(w: World)
    requires WellWired(w) && w.eval == Nothing() && forall id | id in w.specs :: PlainSpec(w.specs[id])
    ensures Monotone(w.eval) && Adequate(w) && Faultless(w) && SelectorsFaultless(w)
  {
    hide WellWired, Renders, PlainSpec;
    forall id | id in w.specs
      ensures AdequateSpec(w, id) && BooleanConditions(w, w.specs[id]) && BoundedDimensions(w, w.specs[id]) && Renders(w.specs[id])
      ensures ItemsApart(w, id) && SelectorFaultless(w, w.specs[id])
    {
      PlainFaultless(w, id);
    }
  }

  predicate PlainSpec(spec: Spec) {
    && spec.vars == [] && spec.readyWhen == [] && spec.forEach == [] && !spec.kind.Collection?
    && (forall e | e in spec.includeWhen :: e.refs <= spec.deps) && (spec.kind.ExternalCollection? ==> spec.template == SELECTED)
  }

  lemma PlainFaultless(w: World, id: ID)
    requires WellWired(w) && w.eval == Nothing() && id in w.specs && PlainSpec(w.specs[id])
    ensures AdequateSpec(w, id) && BooleanConditions(w, w.specs[id]) && BoundedDimensions(w, w.specs[id]) && Renders(w.specs[id])
    ensures ItemsApart(w, id) && SelectorFaultless(w, w.specs[id])
  {
    hide WellWired, Rendered;
    var spec := w.specs[id];
    PlainRenders(spec);
    assert IdentityVars([]) == [] && spec.(vars := []) == spec;
    assert Bindings(w, id) == Some([]);
    assert DistinctIdentities([]);
    forall base ensures ItemsOf(w, id, base, []) == Some([]) {
    }
  }

  /** Without fields, a template stays what it is, omitted members aside. */
  lemma PlainRenders(spec: Spec)
    requires spec.vars == []
    ensures forall data :: Rendered(spec.template, Descriptors(spec.vars), data) == Some(Clean(spec.template))
    ensures HasSelector(Clean(SELECTED))
  {
    assert Descriptors([]) == [];
    assert SELECTED.fields["metadata"].fields["selector"] == Obj(map[]);
    assert Clean(SELECTED) == SELECTED by {
      CleanKeepsOmitFree(SELECTED);
    }
    SelectedHasSelector();
  }

  lemma SelectedHasSelector()
    ensures HasSelector(SELECTED)
  {
    var path := [Field("metadata"), Field("selector")];
    assert path[1..] == [Field("selector")] && path[1..][1..] == [];
  }

  /**
    Missing data alone ends the reconciliation, whatever the walk: the condition refers to the instance only, so the
    error says nothing about data, and the external collection meets it when it is asked for.
   */
  lemma ObstacleShows(d: ID, c: ID, walk: Walk, before: map<string, Composed>, max: int)
    requires ObstacleIDs(d, c) && Picks(walk)
    ensures var g := ObstacleGraph(d, c);
            && Built(g) && Consistent(g) && Elems(g.order) <= g.nodes.Keys && Groups(g, EMPTY, map[])
            && RunsTo(g, EMPTY, map[], Nothing(), max, walk, before, false, before)
            && Monotone(Nothing()) && Unfailing(g, EMPTY, map[], Nothing(), max)
  {
    hide IsTopological, Consistent, Groups, WorldFor, FoundWorld, Ranks, Ranked, WellWired, Naming.ValidID, Monotone, Adequate, Faultless;
    hide SelectorsFaultless, SelectFrom, RunFrom, PlainSpec, Nothing, Picks;
    ObstacleBuilt(d, c);
    ObstacleSpecs(d, c, max);
    var g := ObstacleGraph(d, c);
    ObstacleFails(FoundWorld(g, EMPTY, Nothing(), max), Ranks(g), walk, Beginning(before), d, c);
    var u, w := FoundWorld(g, EMPTY, Nothing(), max), WorldFor(g, EMPTY, map[], Nothing(), max);
    ObstaclePlain(u, d, c);
    ObstaclePlain(w, d, c);
    NothingFaultless(u);
    NothingFaultless(w);
  }

  lemma ObstaclePlain(w: World, d: ID, c: ID)
    requires ObstacleWorld(w, d, c)
    ensures forall id | id in w.specs :: PlainSpec(w.specs[id])
  {
    hide WellWired;
    forall id | id in w.specs ensures PlainSpec(w.specs[id]) {
      assert id != d && id != c ==> id == INSTANCE;
    }
  }

  // ---- A value that is right no longer. ----

  /**
    An external node `b` with a readyWhen expression, an external collection `c` with a condition on `b` and a resource `y`,
    and a resource `d` with a condition on `b`.
   */
  datatype ReplacedIDs = ReplacedIDs(b: ID, y: ID, c: ID, d: ID) {
    predicate Valid() {
      && b !in {y, c, d, INSTANCE} && y !in {c, d, INSTANCE} && c !in {d, INSTANCE} && d != INSTANCE
      && Naming.ValidID(y) && Naming.ValidID(d)
    }
  }

  function ReplacedGraph(n: ReplacedIDs): ResourceGraph {
    ResourceGraph([n.b, n.y, n.c, n.d],
                  map[n.b := PlainNode(External, []).(readyWhen := [Expr(Up(n.b), {})]),
                      n.y := PlainNode(Resource, []),
                      n.c := PlainNode(ExternalCollection, [n.b, n.y]).(template := SELECTED, includeWhen := [Both(n.b, n.y)]),
                      n.d := PlainNode(Resource, [n.b]).(includeWhen := [There(n.b)])],
                  PlainNode(Instance, []))
  }

  /** The node is there, and it is up as long as its object is `obj`. */
  function ReplacedOracle(b: ID, obj: Json): Oracle {
    (text: string, ctx: Ctx) =>
      if b !in ctx || text !in {Up(b), There(b).original} then Pending
      else Value(Bool(text == There(b).original || ctx[b] == obj))
  }

  /** The external reference has found `obj`, but there is a composed resource with the name of the node. */
  function ReplacedRequest(b: ID, obj: Json, other: Json): Request {
    Request(Null, map[b := [obj]], map[b := other])
  }

  lemma ReplacedBuilt(n: ReplacedIDs)
    requires n.Valid()
    ensures var g := ReplacedGraph(n); Built(g) && Consistent(g) && Elems(g.order) == g.nodes.Keys == {n.b, n.y, n.c, n.d}
  {
    hide Naming.ValidID, IsTopological, There, Both, Up, DependencyGraph;
    var g := ReplacedGraph(n);
    ReplacedDependencies(n);
    ReplacedTopological(n, DependencyGraph(g));
    ReplacedTexts(n);
  }

  lemma ReplacedTexts(n: ReplacedIDs)
    requires n.Valid()
    ensures Consistent(ReplacedGraph(n))
  {
    hide Naming.ValidID, There, Both, Up;
    TextsDiffer(n.b, n.b, n.y);
    forall e | e in AllAsked(ReplacedGraph(n)) ensures e in {Expr(Up(n.b), {}), There(n.b), Both(n.b, n.y)} {
    }
  }

  lemma ReplacedDependencies(n: ReplacedIDs)
    requires n.Valid()
    ensures DependencyGraph(ReplacedGraph(n)) == map[n.b := {}, n.y := {}, n.c := {n.b, n.y}, n.d := {n.b}]
  {
    hide Naming.ValidID, There, Both, Up;
    var g := ReplacedGraph(n);
    assert Elems(g.nodes[n.b].dependencies) == {} && Elems(g.nodes[n.y].dependencies) == {};
    assert Elems(g.nodes[n.c].dependencies) == {n.b, n.y} by {
      assert g.nodes[n.c].dependencies[0] == n.b && g.nodes[n.c].dependencies[1] == n.y;
    }
    assert Elems(g.nodes[n.d].dependencies) == {n.b} by {
      assert g.nodes[n.d].dependencies[0] == n.b;
    }
  }

  lemma ReplacedTopological(n: ReplacedIDs, h: Graph)
    requires n.Valid() && h == map[n.b := {}, n.y := {}, n.c := {n.b, n.y}, n.d := {n.b}]
    ensures IsTopological(h, [n.b, n.y, n.c, n.d]) && Elems([n.b, n.y, n.c, n.d]) == {n.b, n.y, n.c, n.d}
  {
    hide Naming.ValidID;
    var s := [n.b, n.y, n.c, n.d];
    assert s[0] == n.b && s[1] == n.y && s[2] == n.c && s[3] == n.d;
    assert s[..2][0] == n.b && s[..2][1] == n.y && s[..3][0] == n.b;
  }

  lemma ReplacedGroups(n: ReplacedIDs, obj: Json, other: Json)
    requires n.Valid()
    ensures var g, req := ReplacedGraph(n), ReplacedRequest(n.b, obj, other);
            Groups(g, req, map[n.b := [other]]) && Provides(g, req.external)
  {
    hide Naming.ValidID;
    var g, req := ReplacedGraph(n), ReplacedRequest(n.b, obj, other);
    assert Naming.Grouped(req.composed, g.nodes.Keys, Collections(g), map[n.b := [other]], map[n.b := [n.b]]);
  }

  predicate AreReplaced(specs: map<ID, Spec>, n: ReplacedIDs) {
    && specs.Keys == {n.b, n.y, n.c, n.d, INSTANCE}
    && specs[INSTANCE] == Spec(Instance, {}, Obj(map[]), [], [], [], [])
    && specs[n.b] == Spec(External, {INSTANCE}, Obj(map[]), [], [], [Expr(Up(n.b), {})], [])
    && specs[n.y] == Spec(Resource, {INSTANCE}, Obj(map[]), [], [], [], [])
    && specs[n.c] == Spec(ExternalCollection, {n.b, n.y, INSTANCE}, SELECTED, [], [Both(n.b, n.y)], [], [])
    && specs[n.d] == Spec(Resource, {n.b, INSTANCE}, Obj(map[]), [], [There(n.b)], [], [])
  }

  /** The world of the example, with `obj` observed. */
  ghost predicate ReplacedWorld(w: World, rank: map<ID, nat>, n: ReplacedIDs, obj: Json, now: Json) {
    && n.Valid() && WellWired(w) && Ranked(w, rank) && w.eval == ReplacedOracle(n.b, obj)
    && AreReplaced(w.specs, n)
    && w.observed.Keys == {INSTANCE, n.b} && w.observed[n.b] == [now]
  }

  lemma ReplacedSpecs(n: ReplacedIDs)
    requires n.Valid()
    ensures var g := ReplacedGraph(n);
            && Elems(g.order) <= g.nodes.Keys
            && AreReplaced(WiredSpecs(g, SeenIn(g)), n)
  {
    hide SeenIn, IsTopological, Consistent, Naming.ValidID;
    var g := ReplacedGraph(n);
    ReplacedBuilt(n);
    SharingUnnoticedIff(g);
    UnsharedSpec(g, g.nodes[n.b]);
    UnsharedSpec(g, g.nodes[n.y]);
    UnsharedSpec(g, g.nodes[n.c]);
    UnsharedSpec(g, g.nodes[n.d]);
    UnsharedSpec(g, InstanceOf(g));
    assert Linked(g, g.nodes[n.b]) == {INSTANCE};
    assert Linked(g, g.nodes[n.y]) == {INSTANCE};
    assert Linked(g, g.nodes[n.c]) == {n.b, n.y, INSTANCE};
    assert Linked(g, g.nodes[n.d]) == {n.b, INSTANCE};
    assert Linked(g, InstanceOf(g)) == {};
  }

  function PlainOnes(n: ReplacedIDs): set<ID> {
    {n.b, n.y, INSTANCE}
  }

  lemma ReplacedPlain(w: World, rank: map<ID, nat>, n: ReplacedIDs, obj: Json, now: Json)
    requires ReplacedWorld(w, rank, n, obj, now)
    ensures WellWired(w) && Ranked(w, rank) && PlainOnes(n) <= w.specs.Keys && Downward(w, PlainOnes(n))
    ensures forall m | m in PlainOnes(n) :: w.specs[m].includeWhen == []
  {
    hide Ranked, Naming.ValidID;
  }

  /** A kept value decides about the node's readiness; otherwise its object does. */
  lemma ReplacedReady(w: World, rank: map<ID, nat>, n: ReplacedIDs, obj: Json, now: Json, cache: Cache, desired: Desired)
    requires ReplacedWorld(w, rank, n, obj, now) && (Text(Up(n.b)) in cache ==> cache[Text(Up(n.b))] == Bool(true))
    ensures var up := Text(Up(n.b)) in cache || now == obj;
            ObservedNow(w, cache, desired, n.b) == (if up then IsReady else Waiting, cache[Text(Up(n.b)) := Bool(up)])
  {
    hide Ranked, Naming.ValidID;
    var up, ctx := Expr(Up(n.b), {}), map[n.b := now];
    assert Observed(w, n.b)[0] == now;
    assert FilterContext(ctx, up.refs) == ctx;
    var key, v := Text(Up(n.b)), Bool(Text(Up(n.b)) in cache || now == obj);
    if key !in cache {
      assert w.eval(up.original, ctx) == Value(v);
      LookNew(w.eval, cache, key, up, ctx);
    } else {
      assert cache[key := Bool(true)] == cache;
      assert CachedEval(w.eval, up, Some(Bool(true)), ctx) == (Value(Bool(true)), Some(Bool(true)));
    }
    assert Look(w.eval, cache, key, up, ctx) == (Value(v), cache[key := v]);
    assert SingleFrom(w, cache[key := v], n.b, 1) == (IsReady, cache[key := v]);
  }

  lemma ReplacedUnobserved(w: World, rank: map<ID, nat>, n: ReplacedIDs, obj: Json, now: Json, cache: Cache, desired: Desired)
    requires ReplacedWorld(w, rank, n, obj, now)
    ensures ObservedNow(w, cache, desired, n.y) == (Waiting, cache)
  {
    hide Ranked, Naming.ValidID;
  }

  lemma {:induction false} ReplacedWaits(w: World, rank: map<ID, nat>, walk: Walk, m: Memory, desired: Desired, n: ReplacedIDs,
                                         obj: Json, now: Json, todo: set<ID>)
    requires ReplacedWorld(w, rank, n, obj, now) && Picks(walk) && n.y in todo && todo <= {n.y, INSTANCE}
    ensures var (r, next) := DependenciesFrom(w, rank, walk, m, desired, n.c, todo); r == Waiting && next.cache == m.cache
    decreases todo
  {
    hide IgnoredNow, Ranked, Naming.ValidID;
    var d := walk(m.tick, todo);
    if d == INSTANCE {
      ReplacedWaits(w, rank, walk, Memory(m.cache, m.tick + 1), desired, n, obj, now, todo - {d});
    } else {
      ReplacedPlain(w, rank, n, obj, now);
      Unconditional(w, rank, walk, Memory(m.cache, m.tick + 1), desired, d, PlainOnes(n));
    }
  }

  /** The external collection waits for the resource; whether it looks at the external node before depends on the walk. */
  lemma ReplacedCollection(w: World, rank: map<ID, nat>, k: ID, m: Memory, n: ReplacedIDs, obj: Json)
    requires ReplacedWorld(w, rank, n, obj, obj) && k in {n.b, n.y} && m.cache == map[]
    ensures Picks(First(k))
    ensures var (r, next) := DependenciesFrom(w, rank, First(k), m, map[], n.c, {n.b, n.y, INSTANCE});
            r == Waiting && next.cache == if k == n.b then map[Text(Up(n.b)) := Bool(true)] else map[]
  {
    hide IgnoredNow, ObservedNow, First, Ranked, Naming.ValidID, WellWired;
    FirstPicks(k);
    FirstIs(k, {n.b, n.y, INSTANCE}, m.tick);
    ReplacedPlain(w, rank, n, obj, obj);
    var m' := Memory(m.cache, m.tick + 1);
    Unconditional(w, rank, First(k), m', map[], k, PlainOnes(n));
    if k == n.b {
      ReplacedReady(w, rank, n, obj, obj, m.cache, map[]);
      var next := ReadyNow(w, rank, First(k), m', map[], k).1;
      ReplacedWaits(w, rank, First(k), next, map[], n, obj, obj, {n.y, INSTANCE});
      assert {n.b, n.y, INSTANCE} - {n.b} == {n.y, INSTANCE};
    } else {
      ReplacedUnobserved(w, rank, n, obj, obj, m.cache, map[]);
    }
  }

  /** Asking for external nodes leaves nothing but the kept value. */
  lemma ReplacedSelected(w: World, rank: map<ID, nat>, k: ID, n: ReplacedIDs, obj: Json)
    requires ReplacedWorld(w, rank, n, obj, obj) && k in {n.b, n.y}
    ensures Picks(First(k)) && forall id | id in [n.b, n.y, n.c, n.d] :: id in w.specs
    ensures var s := SelectFrom(w, rank, First(k), Beginning(map[]), [n.b, n.y, n.c, n.d], 0);
            && s.ok && s.out == map[] && s.desired == map[]
            && s.memory.cache == if k == n.b then map[Text(Up(n.b)) := Bool(true)] else map[]
  {
    hide IgnoredNow, First, WellWired, Ranked, Naming.ValidID, DependenciesFrom, ObjectsNow;
    FirstPicks(k);
    ReplacedPlain(w, rank, n, obj, obj);
    var walk, order, s := First(k), [n.b, n.y, n.c, n.d], Beginning(map[]);
    PlainObject(w, walk, s.memory, n.b);
    assert IdentityVars([]) == [];
    assert SelectNow(w, rank, walk, s, n.b) == s && SelectNow(w, rank, walk, s, n.y) == s;
    ReplacedCollection(w, rank, k, s.memory, n, obj);
    var e := SelectNow(w, rank, walk, s, n.c);
    assert SelectNow(w, rank, walk, e, n.d) == e;
    assert SelectFrom(w, rank, walk, e, order, 4) == e;
    assert SelectFrom(w, rank, walk, e, order, 3) == e;
    assert SelectFrom(w, rank, walk, s, order, 2) == e;
    assert SelectFrom(w, rank, walk, s, order, 1) == e;
  }

  /** The node in front of the condition is ready if the value is kept, and otherwise waited for. */
  lemma ReplacedIgnored(w: World, rank: map<ID, nat>, walk: Walk, m: Memory, desired: Desired, n: ReplacedIDs, obj: Json, other: Json)
    requires ReplacedWorld(w, rank, n, obj, other) && obj != other && Picks(walk)
    requires m.cache in {map[], map[Text(Up(n.b)) := Bool(true)]}
    ensures var (r, next) := IgnoredNow(w, rank, walk, m, desired, n.d);
            if m.cache == map[] then r == Undecided(true)
            else r == NotIgnored && Text(Up(n.b)) in next.cache && next.cache[Text(Up(n.b))] == Bool(true)
  {
    hide IgnoredFrom, RefsFrom, ObservedNow, Ranked, Downward, WellWired, ConditionsFrom, Naming.ValidID;
    ReplacedPlain(w, rank, n, obj, other);
    UnconditionalDeps(w, rank, walk, m, desired, n.d, w.specs[n.d].deps, PlainOnes(n));
    var next := IgnoredFrom(w, rank, walk, m, desired, n.d, w.specs[n.d].deps).1;
    assert NeededBy([There(n.b)]) == {n.b};
    assert NeededBy([There(n.b)]) - {INSTANCE} == {n.b};
    RefsStep(w, walk, next, desired, n.d, {n.b});
    assert walk(next.tick, {n.b}) == n.b;
    ReplacedReady(w, rank, n, obj, other, next.cache, desired);
    if m.cache != map[] {
      assert Text(Up(n.b)) in next.cache;
      var c := next.cache[Text(Up(n.b)) := Bool(true)];
      assert {n.b} - {n.b} == {};
      RefsStep(w, walk, Memory(c, next.tick + 1), desired, n.d, {});
      ReplacedThere(w, rank, n, obj, other, c);
      assert ConditionsNow(w, walk, next, desired, n.d).0 == NotIgnored;
    }
  }

  lemma ReplacedThere(w: World, rank: map<ID, nat>, n: ReplacedIDs, obj: Json, other: Json, cache: Cache)
    requires ReplacedWorld(w, rank, n, obj, other) && cache == map[Text(Up(n.b)) := Bool(true)]
    ensures ConditionsFrom(w, cache, n.d, 0) == (NotIgnored, cache[Text(There(n.b).original) := Bool(true)])
    ensures There(n.b).original != Up(n.b)
  {
    hide Ranked, Naming.ValidID, WellWired;
    ReplacedPlain(w, rank, n, obj, other);
    TextsDiffer(n.b, n.b, n.b);
    var there := There(n.b);
    assert NeededBy([there]) == {n.b};
    var ctx := NodeContext(w, n.d, {n.b});
    assert n.b in ctx && n.b in FilterContext(ctx, there.refs);
    LookNew(w.eval, cache, Text(there.original), there, ctx);
    var after := cache[Text(there.original) := Bool(true)];
    assert ConditionsFrom(w, after, n.d, 1) == (NotIgnored, after);
  }

  /** The resource that needs the external node is emitted if the value is kept. */
  lemma ReplacedLast(w: World, rank: map<ID, nat>, walk: Walk, s: State, n: ReplacedIDs, obj: Json, other: Json)
    requires ReplacedWorld(w, rank, n, obj, other) && obj != other && Picks(walk) && n.d !in s.desired
    requires s.memory.cache in {map[], map[Text(Up(n.b)) := Bool(true)]}
    ensures var s' := VisitNow(w, rank, walk, s, n.d);
            s'.ok == s.ok && s'.out == if s.memory.cache == map[] then s.out else s.out[n.d := Plain()]
  {
    hide IgnoredNow, EmitFrom, ObservedNow, Downward, WellWired, Ranked, Naming.ValidID, ObjectsNow, Plain, ResolveNow;
    ReplacedPlain(w, rank, n, obj, other);
    ReplacedIgnored(w, rank, walk, s.memory, s.desired, n, obj, other);
    if s.memory.cache != map[] {
      var m := IgnoredNow(w, rank, walk, s.memory, s.desired, n.d).1;
      ReplacedReady(w, rank, n, obj, other, m.cache, s.desired);
      assert m.cache[Text(Up(n.b)) := Bool(true)] == m.cache;
      PlainVisit(w, rank, walk, s, n.d, PlainOnes(n));
      PlainIs();
    }
  }

  lemma PlainIs()
    ensures Plain() == Composed(Clean(Obj(map[])), Unspecified)
  {
  }

  lemma ReplacedRun(w: World, rank: map<ID, nat>, walk: Walk, s: State, n: ReplacedIDs, obj: Json, other: Json)
    requires ReplacedWorld(w, rank, n, obj, other) && obj != other && Picks(walk) && s.ok && s.out == map[] && s.desired == map[]
    requires s.memory.cache in {map[], map[Text(Up(n.b)) := Bool(true)]}
    ensures forall id | id in [n.b, n.y, n.c, n.d] :: id in w.specs
    ensures var e := RunFrom(w, rank, walk, s, [n.b, n.y, n.c, n.d], 0);
            e.ok && e.out == if s.memory.cache == map[] then map[n.y := Plain()] else map[n.y := Plain(), n.d := Plain()]
  {
    hide IgnoredNow, ObservedNow, WellWired, Ranked, Naming.ValidID, ResolveNow, EmitFrom, Plain;
    ReplacedPlain(w, rank, n, obj, other);
    PlainIs();
    var order := [n.b, n.y, n.c, n.d];
    assert VisitNow(w, rank, walk, s, n.b) == s;
    Unconditional(w, rank, walk, s.memory, s.desired, n.y, PlainOnes(n));
    PlainVisit(w, rank, walk, s, n.y, PlainOnes(n));
    var s2 := VisitNow(w, rank, walk, s, n.y);
    assert VisitNow(w, rank, walk, s2, n.c) == s2;
    hide VisitNow;
    ReplacedLast(w, rank, walk, s2, n, obj, other);
    var s4 := VisitNow(w, rank, walk, s2, n.d);
    assert RunFrom(w, rank, walk, s4, order, 4) == s4;
    assert RunFrom(w, rank, walk, s2, order, 3) == s4;
    assert RunFrom(w, rank, walk, s2, order, 2) == s4;
    assert RunFrom(w, rank, walk, s, order, 1) == s4;
    assert RunFrom(w, rank, walk, s, order, 0) == s4;
    assert s2.out == map[n.y := Plain()];
  }

  lemma ReplacedLinks(n: ReplacedIDs)
    requires n.Valid()
    ensures var g := ReplacedGraph(n); n.b in Linked(g, g.nodes[n.d]) && {n.b, n.y} <= Linked(g, g.nodes[n.c])
  {
    hide Naming.ValidID;
  }

  lemma ReplacedReads(n: ReplacedIDs, obj: Json)
    requires n.Valid()
    ensures var eval := ReplacedOracle(n.b, obj);
            && Monotone(eval) && ReadsOnly(eval, Up(n.b), {n.b}) && ReadsOnly(eval, There(n.b).original, {n.b})
            && ReadsOnly(eval, Both(n.b, n.y).original, {n.b, n.y})
  {
    hide Naming.ValidID, Up, There, Both;
    var eval := ReplacedOracle(n.b, obj);
    forall c ensures eval(Up(n.b), c) == eval(Up(n.b), OnlyThese(c, {n.b})) {
    }
    forall c ensures eval(There(n.b).original, c) == eval(There(n.b).original, OnlyThese(c, {n.b})) {
    }
    TextsDiffer(n.b, n.b, n.y);
  }

  lemma ReplacedRight(n: ReplacedIDs, obj: Json)
    requires n.Valid()
    ensures Monotone(ReplacedOracle(n.b, obj)) && RightReferences(ReplacedGraph(n), ReplacedOracle(n.b, obj))
  {
    hide Naming.ValidID, Linked, ReadsOnly, ReplacedOracle, Monotone;
    var g, eval := ReplacedGraph(n), ReplacedOracle(n.b, obj);
    ReplacedReads(n, obj);
    ReplacedLinks(n);
    assert RightNode(g, eval, g.nodes[n.b], n.b);
    assert RightNode(g, eval, g.nodes[n.y], n.y);
    assert RightNode(g, eval, g.nodes[n.c], n.c);
    assert RightNode(g, eval, g.nodes[n.d], n.d);
  }

  lemma ReplacedInWorld(n: ReplacedIDs, obj: Json, other: Json, max: int)
    requires n.Valid()
    ensures var g, req, eval := ReplacedGraph(n), ReplacedRequest(n.b, obj, other), ReplacedOracle(n.b, obj);
            && Elems(g.order) <= g.nodes.Keys
            && Runnable(g, FoundWorld(g, req, eval, max)) && Runnable(g, WorldFor(g, req, map[n.b := [other]], eval, max))
            && ReplacedWorld(FoundWorld(g, req, eval, max), Ranks(g), n, obj, obj)
            && ReplacedWorld(WorldFor(g, req, map[n.b := [other]], eval, max), Ranks(g), n, obj, other)
  {
    hide IsTopological, Built, Groups, WiredSpecs, SeenIn, WellWired, WorldFor, Ranks, Ranked, Naming.ValidID, ReplacedOracle, Up;
    hide AreReplaced, ReplacedGraph;
    var g, req, eval := ReplacedGraph(n), ReplacedRequest(n.b, obj, other), ReplacedOracle(n.b, obj);
    ReplacedBuilt(n);
    ReplacedGroups(n, obj, other);
    IsRunnable(g, req, map[n.b := [other]], eval, max);
    ReplacedSpecs(n);
    ObservedOf(g, req, map[n.b := [other]], eval, max);
    ObservedOf(g, req.(composed := map[]), map[], eval, max);
  }

  lemma ReplacedRunsTo(n: ReplacedIDs, obj: Json, other: Json, k: ID, max: int)
    requires n.Valid() && obj != other && k in {n.b, n.y}
    ensures var g := ReplacedGraph(n);
            && Elems(g.order) <= g.nodes.Keys && Picks(First(k))
            && RunsTo(g, ReplacedRequest(n.b, obj, other), map[n.b := [other]], ReplacedOracle(n.b, obj), max, First(k), map[], true,
                      if k == n.b then map[n.y := Plain(), n.d := Plain()] else map[n.y := Plain()])
  {
    hide IsTopological, Groups, WorldFor, FoundWorld, WellWired, Ranks, Ranked, Naming.ValidID, ReplacedOracle, Up, RunFrom, SelectFrom;
    hide Plain, First, ReplacedWorld;
    var g, req, eval := ReplacedGraph(n), ReplacedRequest(n.b, obj, other), ReplacedOracle(n.b, obj);
    ReplacedInWorld(n, obj, other, max);
    ReplacedSelected(FoundWorld(g, req, eval, max), Ranks(g), k, n, obj);
    var s := SelectFrom(FoundWorld(g, req, eval, max), Ranks(g), First(k), Beginning(map[]), g.order, 0);
    assert k == n.b ==> Text(Up(n.b)) in s.memory.cache;
    ReplacedRun(WorldFor(g, req, map[n.b := [other]], eval, max), Ranks(g), First(k), s, n, obj, other);
  }

  /**
    One request, two outputs, although texts are not shared, references are right and no collection has two items: a
    composed resource takes the place of what an external reference has found. If the external collection looks at the
    external node before the resource that it waits for, the value that was right before is kept.
   */
  lemma ReplacedShows(n: ReplacedIDs, obj: Json, other: Json, max: int)
    requires n.Valid() && obj != other
    ensures var g, req, eval := ReplacedGraph(n), ReplacedRequest(n.b, obj, other), ReplacedOracle(n.b, obj);
            && Built(g) && Consistent(g) && Monotone(eval) && RightReferences(g, eval) && Elems(g.order) <= g.nodes.Keys
            && Groups(g, req, map[n.b := [other]]) && Picks(First(n.b)) && Picks(First(n.y))
            && RunsTo(g, req, map[n.b := [other]], eval, max, First(n.b), map[], true, map[n.y := Plain(), n.d := Plain()])
            && RunsTo(g, req, map[n.b := [other]], eval, max, First(n.y), map[], true, map[n.y := Plain()])
  {
    hide IsTopological, Groups, RunsTo, Naming.ValidID, ReplacedOracle, Plain, First, Built, Consistent, Monotone, RightReferences;
    ReplacedBuilt(n);
    ReplacedGroups(n, obj, other);
    ReplacedRight(n, obj);
    ReplacedRunsTo(n, obj, other, n.b, max);
    ReplacedRunsTo(n, obj, other, n.y, max);
  }

  /** There are such nodes. */
  lemma SelectorExamplesExist()
    ensures ReplacedIDs("vpc", "role", "items", "policy").Valid() && ObstacleIDs("policy", "items")
  {
    var n := ReplacedIDs("vpc", "role", "items", "policy");
    assert n.b[0] != n.y[0] && n.b[0] != n.c[0] && n.b[0] != n.d[0] && n.b[0] != INSTANCE[0];
    assert n.y[0] != n.c[0] && n.y[0] != n.d[0] && n.y[0] != INSTANCE[0];
    assert n.c[0] != n.d[0] && n.c[0] != INSTANCE[0] && n.d[0] != INSTANCE[0];
    assert Naming.ValidID(n.y) && Naming.ValidID(n.d);
  }
}
