/** What it takes to ask for external nodes: `externalRefSelectorsFromRuntime` in `fn.go`. */
module Selectors {
  import opened Sets
  import opened Trees
  import opened Graphs
  import opened World
  import opened Adequacy
  import opened Reconcile
  import opened Faults
  import opened Walks
  import opened Meanings
  import opened Identities

  /**
    Templates of external nodes can be filled in, and a selector can be read off those that stand for many, once their
    fields have values.
   */
  ghost predicate SelectorsFaultless(w: World)
    requires WellWired(w)
  {
    && ConditionsFaultless(w)
    && forall id | id in w.specs :: SelectorFaultless(w, w.specs[id])
  }

  ghost predicate SelectorFaultless(w: World, spec: Spec)
    requires WellWired(w)
  {
    && (spec.kind.External? ==> Renders(spec.(vars := IdentityVars(spec.vars))))
    && (spec.kind.ExternalCollection? ==> Renders(spec) && forall data | BaseData(w, spec.vars) == Some(data) ::
          var obj := Rendered(spec.template, Descriptors(spec.vars), data); obj.Some? ==> HasSelector(obj.value))
  }

  /** Identification is not gated by readiness, and never fails where the identity can be filled in. */
  lemma IdentityMeans(w: World, cache: Cache, id: ID)
    requires WellWired(w) && Monotone(w.eval) && Sound(w, cache) && id in w.specs && w.specs[id].kind.External?
    ensures var (obj, c) := SingleNow(w, cache, id, IdentityVars(w.specs[id].vars));
            Sound(w, c) && (SelectorsFaultless(w) ==> !obj.Failure?)
  {
    hide WellWired, Monotone, Sound, BaseFrom, FullContext, Rendered, NeverFatal;
    var spec := w.specs[id];
    var vars := IdentityVars(spec.vars);
    var only := Originals(vars, false);
    IdentityVarsAre(spec.vars);
    assert Named(spec.vars[..0], only) == {};
    BaseMeans(w, cache, id, only, 0, map[]);
    var base := BaseFrom(w, cache, id, only, 0, map[]).0;
    if SelectorsFaultless(w) {
      assert SelectorFaultless(w, spec);
      if base.Done? {
        assert Covers(vars, base.value);
      }
    }
  }

  // ---- What is resolved meanwhile does not matter. ----

  predicate NothingManaged(w: World, desired: Desired) {
    forall id | Managed(w, id) :: id !in desired
  }

  /** Only collections that are expanded make a difference to readiness. */
  lemma BlockedSame(w: World, a: Desired, b: Desired, id: ID)
    requires WellWired(w) && id in w.specs && NothingManaged(w, a) && NothingManaged(w, b)
    ensures Blocked(w, a, id) == Blocked(w, b, id)
    ensures forall m | m in w.specs :: StuckOnly(w, a, m) == StuckOnly(w, b, m)
  {
    hide Included, Stuck;
    forall m | m in w.specs ensures StuckOnly(w, a, m) == StuckOnly(w, b, m) {
      StuckSame(w, a, b, m);
      forall d | d in w.specs ensures Included(w, a, d) == Included(w, b, d) {
        IncludedSame(w, a, b, d);
      }
      DepsKnown(w, m);
    }
  }

  lemma OwnSame(w: World, a: Desired, b: Desired, m: ID)
    requires WellWired(w) && m in w.specs && NothingManaged(w, a) && NothingManaged(w, b)
    ensures OwnConditions(w, a, m) == OwnConditions(w, b, m)
    ensures forall r | r in w.specs :: ObservedReady(w, a, r) == ObservedReady(w, b, r)
  {
    hide Holds;
    forall r | r in w.specs ensures ObservedReady(w, a, r) == ObservedReady(w, b, r) {
      ReadyLocal(w, {r}, a, b, r);
    }
  }

  lemma IncludedSame(w: World, a: Desired, b: Desired, id: ID)
    requires WellWired(w) && id in w.specs && NothingManaged(w, a) && NothingManaged(w, b)
    ensures Included(w, a, id) == Included(w, b, id)
  {
    hide OwnConditions, WellWired, Reaches, NothingManaged;
    forall m | m in w.specs ensures OwnConditions(w, a, m) == OwnConditions(w, b, m) {
      OwnSame(w, a, b, m);
    }
  }

  lemma StuckSame(w: World, a: Desired, b: Desired, m: ID)
    requires WellWired(w) && m in w.specs && NothingManaged(w, a) && NothingManaged(w, b)
    ensures Stuck(w, a, m) == Stuck(w, b, m)
  {
    hide ObservedReady, NothingManaged, ConditionRefs, PendingAt;
    OwnSame(w, a, b, m);
    DepsKnown(w, m);
  }

  // ---- One node. ----

  /** Some dependency of the node, which stands for many, cannot be decided for a reason that is not missing data. */
  ghost predicate Obstructed(w: World, id: ID)
    requires WellWired(w) && id in w.specs
  {
    w.specs[id].kind.ExternalCollection? && exists d :: d in w.specs[id].deps && d != INSTANCE && d in w.specs && Blocked(w, map[], d)
  }

  lemma ResolvedHasSelector(w: World, rank: map<ID, nat>, walk: Walk, m: Memory, desired: Desired, id: ID)
    requires WellWired(w) && Monotone(w.eval) && Sound(w, m.cache) && id in w.specs && id !in desired
    requires Picks(walk) && Ranked(w, rank) && w.specs[id].kind.ExternalCollection?
    ensures var (r, next) := ResolveNow(w, rank, walk, m, desired, id);
            && (r.Done? && SelectorsFaultless(w) ==> r.value != [] && HasSelector(r.value[0]))
            && (Adequate(w) && SelectorsFaultless(w) && r.Failure? ==>
                 exists d :: d in w.specs[id].deps && d != INSTANCE && d in w.specs && Blocked(w, desired, d))
  {
    hide WellWired, Monotone, Sound, DependenciesFrom, BaseFrom, ObservedReady, Included, Excluded, Adequate, Blocked, Rendered, HasSelector;
    hide ConditionsFaultless, BaseData, Originals, NeverFatal;
    DepsKnown(w, id);
    var spec := w.specs[id];
    DependenciesMean(w, rank, walk, m, desired, id, spec.deps);
    var (ready, next) := DependenciesFrom(w, rank, walk, m, desired, id, spec.deps);
    BaseDataMeans(w, next.cache, id);
    var base := BaseFrom(w, next.cache, id, Originals(spec.vars, false), 0, map[]).0;
    if SelectorsFaultless(w) {
      assert SelectorFaultless(w, spec);
      NeverFatalHere(w);
      if base.Done? {
        BaseCovers(w, spec, base.value);
      }
    }
  }

  lemma NeverFatalHere(w: World)
    requires WellWired(w) && SelectorsFaultless(w)
    ensures NeverFatal(w) && ConditionsFaultless(w)
  {
  }

  lemma SelectMeans(w: World, rank: map<ID, nat>, walk: Walk, s: State, id: ID)
    requires WellWired(w) && Monotone(w.eval) && Sound(w, s.memory.cache) && id in w.specs && id != INSTANCE && id !in s.desired
    requires Picks(walk) && Ranked(w, rank) && NothingManaged(w, s.desired) && s.ok
    ensures var e := SelectNow(w, rank, walk, s, id);
            && Sound(w, e.memory.cache) && e.out == s.out && NothingManaged(w, e.desired) && e.desired.Keys <= s.desired.Keys + {id}
            && (Adequate(w) && SelectorsFaultless(w) && !e.ok ==> Obstructed(w, id))
  {
    hide WellWired, Monotone, Sound, ResolveNow, SingleNow, Adequate, SelectorsFaultless, HasSelector, Blocked;
    DepsKnown(w, id);
    if w.specs[id].kind.External? {
      IdentityMeans(w, s.memory.cache, id);
    } else if w.specs[id].kind.ExternalCollection? {
      assert !Managed(w, id);
      ResolveMeans(w, rank, walk, s.memory, s.desired, id);
      ResolvedHasSelector(w, rank, walk, s.memory, s.desired, id);
      if d :| d in w.specs[id].deps && d != INSTANCE && d in w.specs && Blocked(w, s.desired, d) {
        BlockedSame(w, s.desired, map[], d);
        assert Obstructed(w, id);
      } else {
        assert Adequate(w) && SelectorsFaultless(w) ==> !ResolveNow(w, rank, walk, s.memory, s.desired, id).0.Failure?;
        assert Adequate(w) && SelectorsFaultless(w) ==> SelectNow(w, rank, walk, s, id).ok;
      }
    }
  }

  // ---- All nodes. ----

  /** The order has nodes only, each once. */
  predicate NodesOf(w: World, order: seq<ID>) {
    Distinct(order) && forall id | id in order :: id in w.specs && id != INSTANCE
  }

  lemma {:induction false} SelectFromMeans(w: World, rank: map<ID, nat>, walk: Walk, s: State, order: seq<ID>, k: nat)
    requires WellWired(w) && Monotone(w.eval) && Sound(w, s.memory.cache) && NodesOf(w, order) && k <= |order|
    requires Picks(walk) && Ranked(w, rank) && NothingManaged(w, s.desired) && s.desired.Keys <= Elems(order[..k]) && s.ok
    ensures var e := SelectFrom(w, rank, walk, s, order, k);
            && Sound(w, e.memory.cache) && e.out == s.out && NothingManaged(w, e.desired)
            && (Adequate(w) && SelectorsFaultless(w) && !e.ok ==> exists id :: id in order && id in w.specs && Obstructed(w, id))
    decreases |order| - k
  {
    hide WellWired, Monotone, Sound, Adequate, SelectorsFaultless, SelectNow, NothingManaged, Obstructed, Ranked;
    if k < |order| {
      var id := order[k];
      assert id in order && id !in order[..k];
      SelectMeans(w, rank, walk, s, id);
      assert order[..k + 1] == order[..k] + [id];
      var next := SelectNow(w, rank, walk, s, id);
      if next.ok {
        SelectFromMeans(w, rank, walk, next, order, k + 1);
      } else {
        assert SelectFrom(w, rank, walk, next, order, k + 1) == next;
      }
    }
  }

  // ---- A walk that fails. ----

  ghost function Any(keys: set<string>): string {
    if keys == {} then "" else var k :| k in keys; k
  }

  /** A walk towards `m`: what depends on it comes first. */
  ghost function Toward(w: World, m: ID): Walk {
    (tick: nat, keys: set<string>) =>
      if exists k :: k in keys && Reaches(IgnoreGraph(w), k, m) then var k :| k in keys && Reaches(IgnoreGraph(w), k, m); k
      else Any(keys)
  }

  lemma TowardPicks(w: World, m: ID)
    ensures Picks(Toward(w, m))
    ensures forall tick, keys, k | k in keys && Reaches(IgnoreGraph(w), k, m) :: Reaches(IgnoreGraph(w), Toward(w, m)(tick, keys), m)
  {
    hide Reaches, IgnoreGraph;
  }

  /** The way leads on along a dependency. */
  lemma OnTheWay(w: World, id: ID, m: ID) returns (d: ID)
    requires WellWired(w) && id in w.specs && Reaches(IgnoreGraph(w), id, m) && id != m
    ensures d in w.specs[id].deps && Reaches(IgnoreGraph(w), d, m) && id != INSTANCE
  {
    d := ReachesFirst(IgnoreGraph(w), id, m);
  }

  lemma InstanceEnds(w: World, m: ID)
    requires WellWired(w) && Reaches(IgnoreGraph(w), INSTANCE, m)
    ensures m == INSTANCE
  {
    if m != INSTANCE {
      var d := OnTheWay(w, INSTANCE, m);
    }
  }

  /** On the walk towards a node that is stuck, everything that depends on it is undecided. */
  lemma {:induction false} TowardStuck(w: World, rank: map<ID, nat>, mem: Memory, desired: Desired, id: ID, m: ID)
    requires WellWired(w) && Monotone(w.eval) && Sound(w, mem.cache) && Adequate(w) && Ranked(w, rank) && id in w.specs
    requires m in w.specs && StuckOnly(w, desired, m) && Reaches(IgnoreGraph(w), id, m)
    ensures Picks(Toward(w, m)) && IgnoredNow(w, rank, Toward(w, m), mem, desired, id).0 == Undecided(false)
    decreases if id in rank then rank[id] else 0
  {
    hide WellWired, Monotone, Sound, Adequate, ConditionsNow, IgnoredFrom, Included, Reaches, IgnoreGraph, Toward, Stuck;
    TowardPicks(w, m);
    DepsKnown(w, id);
    var walk := Toward(w, m);
    if id == m {
      StuckNoInstance(w, desired, m);
      IgnoredDepsMean(w, rank, walk, mem, desired, id, w.specs[id].deps);
      ConditionsNowMeans(w, walk, IgnoredFrom(w, rank, walk, mem, desired, id, w.specs[id].deps).1, desired, id);
    } else {
      var d := OnTheWay(w, id, m);
      IgnoredStep(w, rank, walk, mem, desired, id, w.specs[id].deps);
      TowardStuck(w, rank, Memory(mem.cache, mem.tick + 1), desired, walk(mem.tick, w.specs[id].deps), m);
    }
  }

  lemma StuckNoInstance(w: World, desired: Desired, m: ID)
    requires WellWired(w) && m in w.specs && Stuck(w, desired, m)
    ensures m != INSTANCE
  {
  }

  lemma TowardFails(w: World, rank: map<ID, nat>, s: State, id: ID, d: ID, m: ID)
    requires WellWired(w) && Monotone(w.eval) && Sound(w, s.memory.cache) && Adequate(w) && Ranked(w, rank) && id !in s.desired
    requires id in w.specs && w.specs[id].kind.ExternalCollection? && d in w.specs[id].deps && m in w.specs
    requires StuckOnly(w, s.desired, m) && Reaches(IgnoreGraph(w), d, m)
    ensures Picks(Toward(w, m)) && !SelectNow(w, rank, Toward(w, m), s, id).ok
  {
    hide WellWired, Monotone, Sound, Adequate, Ranked, IgnoredNow, Included, Reaches, IgnoreGraph, Toward, Stuck, ObservedNow, ObjectsNow;
    TowardPicks(w, m);
    DepsKnown(w, id);
    var walk, deps := Toward(w, m), w.specs[id].deps;
    var first := walk(s.memory.tick, deps);
    StuckNoInstance(w, s.desired, m);
    if first == INSTANCE {
      InstanceEnds(w, m);
    }
    var mem := Memory(s.memory.cache, s.memory.tick + 1);
    TowardStuck(w, rank, mem, s.desired, first, m);
    assert ReadyNow(w, rank, walk, mem, s.desired, first).0 == NotCheckable(false);
    assert DependenciesFrom(w, rank, walk, s.memory, s.desired, id, deps).0 == NotCheckable(false);
  }

  lemma {:induction false} TowardFailsAll(w: World, rank: map<ID, nat>, s: State, order: seq<ID>, k: nat, id: ID, d: ID, m: ID)
    requires WellWired(w) && Monotone(w.eval) && Sound(w, s.memory.cache) && Adequate(w) && Ranked(w, rank) && NodesOf(w, order)
    requires k <= |order| && NothingManaged(w, s.desired) && s.desired.Keys <= Elems(order[..k]) && s.ok
    requires id in order[k..] && id in w.specs && w.specs[id].kind.ExternalCollection? && d in w.specs[id].deps && m in w.specs
    requires StuckOnly(w, map[], m) && Reaches(IgnoreGraph(w), d, m)
    ensures Picks(Toward(w, m)) && !SelectFrom(w, rank, Toward(w, m), s, order, k).ok
    decreases |order| - k
  {
    hide WellWired, Monotone, Sound, Adequate, Ranked, Reaches, IgnoreGraph, Toward, StuckOnly, SelectNow, NothingManaged;
    TowardPicks(w, m);
    BeginningMeans(w);
    assert order[k..] != [];
    var walk, here := Toward(w, m), order[k];
    assert here in order && here !in order[..k];
    assert order[k..] == [here] + order[k + 1..] && order[..k + 1] == order[..k] + [here];
    SelectMeans(w, rank, walk, s, here);
    var next := SelectNow(w, rank, walk, s, here);
    if here == id {
      BlockedSame(w, s.desired, map[], id);
      TowardFails(w, rank, s, id, d, m);
    }
    if next.ok {
      TowardFailsAll(w, rank, next, order, k + 1, id, d, m);
    } else {
      assert SelectFrom(w, rank, walk, next, order, k + 1) == next;
    }
  }

  /** The state in which a reconciliation begins. */
  function Beginning(before: map<string, Composed>): State {
    State(true, before, map[], Memory(map[], 0))
  }

  lemma BeginningMeans(w: World)
    requires WellWired(w)
    ensures Sound(w, map[]) && NothingManaged(w, map[])
  {
  }

  /**
    Some walk fails while external nodes are asked for, although data is the only thing missing, if and only if an
    external node that stands for many meets a dependency whose undecided condition refers to the instance only.
   */
  lemma SelectorsFailIff(w: World, rank: map<ID, nat>, order: seq<ID>, before: map<string, Composed>)
    requires WellWired(w) && Monotone(w.eval) && Adequate(w) && SelectorsFaultless(w) && Ranked(w, rank) && NodesOf(w, order)
    ensures (exists walk :: Picks(walk) && !SelectFrom(w, rank, walk, Beginning(before), order, 0).ok) <==>
            exists id :: id in order && id in w.specs && Obstructed(w, id)
  {
    hide WellWired, Monotone, Sound, Adequate, SelectorsFaultless, Ranked, Reaches, IgnoreGraph, StuckOnly, SelectFrom, NothingManaged, Picks;
    BeginningMeans(w);
    assert Elems(order[..0]) == {};
    if walk :| Picks(walk) && !SelectFrom(w, rank, walk, Beginning(before), order, 0).ok {
      SelectFromMeans(w, rank, walk, Beginning(before), order, 0);
    }
    if id :| id in order && id in w.specs && Obstructed(w, id) {
      var d :| d in w.specs[id].deps && d != INSTANCE && d in w.specs && Blocked(w, map[], d);
      var m :| m in w.specs && Reaches(IgnoreGraph(w), d, m) && StuckOnly(w, map[], m);
      assert order[0..] == order;
      TowardFailsAll(w, rank, Beginning(before), order, 0, id, d, m);
    }
  }

  // ---- Nothing managed is resolved meanwhile, whatever the values. ----

  lemma {:induction false} SelectUnmanaged(w: World, rank: map<ID, nat>, walk: Walk, s: State, order: seq<ID>, k: nat)
    requires WellWired(w) && NodesOf(w, order) && k <= |order| && Picks(walk) && Ranked(w, rank) && NothingManaged(w, s.desired)
    ensures var e := SelectFrom(w, rank, walk, s, order, k); NothingManaged(w, e.desired) && e.out == s.out
    decreases |order| - k
  {
    hide WellWired, ResolveNow, SingleNow, HasSelector, Ranked;
    if k < |order| && s.ok {
      var id := order[k];
      assert id in order;
      assert w.specs[id].kind.ExternalCollection? ==> !Managed(w, id);
      SelectUnmanaged(w, rank, walk, SelectNow(w, rank, walk, s, id), order, k + 1);
    }
  }
}
