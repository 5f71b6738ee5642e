/** What ends a reconciliation with an error, and what does not: missing data is told apart from everything else. */
module Failures {
  import opened Trees
  import opened Graphs
  import opened Resolver
  import opened Objects
  import opened Expansion
  import opened World
  import opened Adequacy
  import opened Reconcile
  import opened Faults
  import opened Walks
  import opened Meanings
  import opened Identities

  // ---- Conditions and readiness. ----

  /** The value is no answer to a condition. */
  predicate NoAnswer(r: Eval) {
    r.Fatal? || (r.Value? && !r.v.Bool? && !r.v.Null?)
  }

  /** After conditions that are true, one that cannot be answered is an error that is not for want of data. */
  lemma {:induction false} FatalCondition(w: World, cache: Cache, id: ID, i: nat, j: nat)
    requires WellWired(w) && Monotone(w.eval) && Sound(w, cache) && Adequate(w) && id in w.specs && i <= j < |w.specs[id].includeWhen|
    requires forall k | i <= k < j :: Holds(w, w.specs[id].includeWhen[k])
    requires NoAnswer(w.eval(w.specs[id].includeWhen[j].original, FullContext(w)))
    ensures ConditionsFrom(w, cache, id, i).0 == Undecided(false)
    decreases j - i
  {
    hide WellWired, Monotone, Sound, Look, NodeContext, FullContext, FilterContext, Within, Adequate;
    var es := w.specs[id].includeWhen;
    var ctx := NodeContext(w, id, NeededBy(es));
    ConditionFresh(w, id, i);
    LookMeans(w, cache, Text(es[i].original), es[i], ctx);
    if i < j {
      FatalCondition(w, Look(w.eval, cache, Text(es[i].original), es[i], ctx).1, id, i + 1, j);
    }
  }

  /** The same of readyWhen expressions of a single node. */
  lemma {:induction false} FatalReady(w: World, cache: Cache, id: ID, i: nat, j: nat)
    requires WellWired(w) && Monotone(w.eval) && Sound(w, cache) && Adequate(w) && id in w.specs && i <= j < |w.specs[id].readyWhen|
    requires !IsMany(w.specs[id].kind) && id != INSTANCE && Observed(w, id) != []
    requires forall k | i <= k < j :: Holds(w, w.specs[id].readyWhen[k])
    requires NoAnswer(w.eval(w.specs[id].readyWhen[j].original, FullContext(w)))
    ensures SingleFrom(w, cache, id, i).0 == NotCheckable(false)
    decreases j - i
  {
    hide WellWired, Monotone, Sound, Look, FullContext, FilterContext, Within, Adequate, ConditionsFaultless;
    var es := w.specs[id].readyWhen;
    var ctx := map[id := Observed(w, id)[0]];
    AdequateReady(w, id, es[i]);
    LookMeans(w, cache, Text(es[i].original), es[i], ctx);
    if i < j {
      FatalReady(w, Look(w.eval, cache, Text(es[i].original), es[i], ctx).1, id, i + 1, j);
    }
  }

  /** Of an item, null is no answer either. */
  lemma {:induction false} FatalItem(eval: Oracle, es: seq<Expr>, items: seq<Json>, k: nat, j: nat, a: nat, b: nat)
    requires k <= a < |items| && b < |es| && j <= |es| && (k == a ==> j <= b) && BadItem(eval(es[b].original, map["each" := items[a]]))
    requires forall c, d | k <= c <= a && 0 <= d < |es| && (c == k ==> j <= d) && (c == a ==> d < b) ::
               eval(es[d].original, map["each" := items[c]]) == Value(Bool(true))
    ensures ItemsReady(eval, es, items, k, j) == NotCheckable(false)
    decreases |items| - k, |es| - j
  {
    if j == |es| {
      FatalItem(eval, es, items, k + 1, 0, a, b);
    } else if k < a || j < b {
      FatalItem(eval, es, items, k, j + 1, a, b);
    }
  }

  // ---- Fields, dimensions and items. ----

  lemma {:induction false} ForEachStops(w: World, cache: Cache, id: ID, i: nat, dims: seq<Dimension>)
    requires WellWired(w) && Monotone(w.eval) && Sound(w, cache) && Adequate(w) && id in w.specs && i <= |w.specs[id].forEach|
    requires NoneEmpty(Lengths(dims))
    ensures ForEachFrom(w, cache, id, i, dims).0.NotYet? ==>
              exists f :: f in w.specs[id].forEach && w.eval(f.expr.original, FullContext(w)).Pending?
    decreases |w.specs[id].forEach| - i
  {
    hide WellWired, Monotone, Sound, Look, NodeContext, FullContext, FilterContext, Within, Adequate, Product, NoneEmpty, Combination, DimensionRefs;
    var all := w.specs[id].forEach;
    if i < |all| {
      var e, ctx := all[i].expr, NodeContext(w, id, DimensionRefs(all));
      DimensionFresh(w, id, i);
      LookMeans(w, cache, Dim(id, i), e, ctx);
      var (v, c) := Look(w.eval, cache, Dim(id, i), e, ctx);
      if v.Value? && v.v.Arr? && v.v.items != [] {
        var dim := Dimension(all[i].name, v.v.items);
        OneDimensionMore(dims, dim);
        ForEachStops(w, c, id, i + 1, dims + [dim]);
      } else if v.Pending? {
        assert all[i] in all && Fresh(w, e).Pending?;
      }
    }
  }

  lemma {:induction false} ItemStops(w: World, walk: Walk, tick: nat, ctx: Ctx, todo: set<string>, values: Data)
    requires Picks(walk)
    ensures ItemFrom(w, walk, tick, ctx, todo, values).0.NotYet? ==> exists o :: o in todo && w.eval(o, ctx).Pending?
    decreases todo
  {
    if todo != {} {
      var o := walk(tick, todo);
      var v := w.eval(o, ctx);
      if v.Value? {
        ItemStops(w, walk, tick + 1, ctx, todo - {o}, values[o := v.v]);
      }
    }
  }

  /** A field of some item has no value yet. */
  ghost predicate ItemPending(w: World, id: ID, bindings: seq<Binding>)
    requires WellWired(w) && id in w.specs
  {
    exists b, v :: b in bindings && v in w.specs[id].vars && v.iteration && w.eval(v.expr.original, IterationContext(w, id, b)).Pending?
  }

  lemma {:induction false} ItemsStop(w: World, walk: Walk, tick: nat, id: ID, base: Data, bindings: seq<Binding>, objs: seq<Json>)
    requires WellWired(w) && id in w.specs && Picks(walk) && |objs| <= |bindings|
    ensures ItemsFrom(w, walk, tick, id, base, bindings, objs).0.NotYet? ==> ItemPending(w, id, bindings)
    decreases |bindings| - |objs|
  {
    hide WellWired, DistinctIdentities, Rendered, WithCollectionIndex, ItemFrom, IterationContext, Originals;
    var spec, k := w.specs[id], |objs|;
    if k < |bindings| {
      var ctx, todo := IterationContext(w, id, bindings[k]), Originals(spec.vars, true);
      ItemStops(w, walk, tick, ctx, todo, map[]);
      var (values, next) := ItemFrom(w, walk, tick, ctx, todo, map[]);
      if values.NotYet? {
        var o :| o in todo && w.eval(o, ctx).Pending?;
        OriginalIn(spec.vars, o);
        assert bindings[k] in bindings;
      } else if values.Done? {
        var obj := Rendered(spec.template, Descriptors(spec.vars), base + values.value);
        if obj.Some? {
          ItemsStop(w, walk, next, id, base, bindings, objs + [WithCollectionIndex(obj.value, k)]);
        }
      }
    }
  }

  lemma OriginalIn(vars: seq<Variable>, o: string)
    requires o in Originals(vars, true)
    ensures exists v :: v in vars && v.iteration && v.expr.original == o
  {
  }

  // ---- A node. ----

  /** Some expression that the node's objects are made with has no value yet. */
  ghost predicate SomethingPending(w: World, id: ID)
    requires WellWired(w) && id in w.specs
  {
    || (exists v :: v in w.specs[id].vars && !v.iteration && w.eval(v.expr.original, FullContext(w)).Pending?)
    || (exists f :: f in w.specs[id].forEach && w.eval(f.expr.original, FullContext(w)).Pending?)
    || (Bindings(w, id).Some? && ItemPending(w, id, Bindings(w, id).value))
  }

  lemma ObjectsStop(w: World, walk: Walk, m: Memory, id: ID)
    requires WellWired(w) && Monotone(w.eval) && Sound(w, m.cache) && Adequate(w) && id in w.specs && Picks(walk)
    ensures ObjectsNow(w, walk, m, id).0.NotYet? ==> SomethingPending(w, id)
  {
    hide WellWired, Monotone, Sound, Adequate, FullContext, BaseFrom, ForEachFrom, ItemsFrom, Rendered, Originals, Named, ItemPending, Bindings;
    hide BaseData, NeverFatal, BoundedDimensions;
    var spec := w.specs[id];
    var only := Originals(spec.vars, false);
    BaseStops(w, m.cache, id, only, 0, map[]);
    NamedAll(spec.vars);
    BaseDataMeans(w, m.cache, id);
    var (base, c) := BaseFrom(w, m.cache, id, only, 0, map[]);
    if base.NotYet? {
      var o :| o in Named(spec.vars, only) && w.eval(o, FullContext(w)).Pending?;
      NamedIn(spec.vars, only, o);
    } else if base.Done? && spec.kind.Collection? {
      BindingsMean(w, c, id);
      NoDimensions();
      ForEachStops(w, c, id, 0, []);
      var (bindings, c') := ForEachNow(w, c, id);
      if bindings.Done? {
        ItemsStop(w, walk, m.tick, id, base.value, bindings.value, []);
      }
    }
  }

  lemma NamedIn(vars: seq<Variable>, only: set<string>, o: string)
    requires o in Named(vars, only)
    ensures exists v :: v in vars && !v.iteration && v.expr.original == o
  {
  }

  /** An external node ends the reconciliation if its name or its namespace is fatal and neither is pending. */
  lemma FatalIdentityFails(w: World, rank: map<ID, nat>, walk: Walk, s: State, id: ID, o: string)
    requires WellWired(w) && Monotone(w.eval) && Sound(w, s.memory.cache) && Adequate(w) && Picks(walk) && Ranked(w, rank)
    requires id in w.specs && w.specs[id].kind.External?
    requires IdentityText(w.specs[id].vars, o) && w.eval(o, FullContext(w)).Fatal?
    requires forall p | IdentityText(w.specs[id].vars, p) :: !w.eval(p, FullContext(w)).Pending?
    ensures !SelectNow(w, rank, walk, s, id).ok
  {
    hide WellWired, Monotone, Sound, Adequate, FullContext, BaseFrom, Rendered, Named, IdentityVars, IdentityText;
    var vars := w.specs[id].vars;
    var only := Originals(IdentityVars(vars), false);
    IdentityDecided(w, s.memory.cache, id);
    BaseStops(w, s.memory.cache, id, only, 0, map[]);
    forall p ensures p in Named(vars, only) <==> IdentityText(vars, p) {
      NamedIdentity(vars, p);
    }
  }

  /**
    A node that may be resolved ends the run with an error if it has no objects although nothing is pending: something is
    fatal or of the wrong kind, there are too many items, two of them have one identity, or a field has no place.
   */
  lemma UnresolvableFails(w: World, rank: map<ID, nat>, walk: Walk, s: State, id: ID)
    requires WellWired(w) && Monotone(w.eval) && Sound(w, s.memory.cache) && Adequate(w) && Picks(walk) && Ranked(w, rank)
    requires Managed(w, id) && id !in s.desired && s.ok
    requires Included(w, s.desired, id) && DependenciesReady(w, s.desired, id)
    requires ObjectsOf(w, id) == None && !SomethingPending(w, id)
    ensures !VisitNow(w, rank, walk, s, id).ok
  {
    hide WellWired, Monotone, Sound, Adequate, Included, Excluded, ObservedReady, ObjectsOf, SomethingPending, IgnoredNow, DependenciesFrom;
    hide ObjectsNow, Blocked, AllDecided, ConditionsFaultless, Faultless, OwnConditions;
    IgnoredMeans(w, rank, walk, s.memory, s.desired, id);
    var m := IgnoredNow(w, rank, walk, s.memory, s.desired, id).1;
    DepsKnown(w, id);
    InclusionKnown(w, s.desired, id);
    DependenciesMean(w, rank, walk, m, s.desired, id, w.specs[id].deps);
    var next := DependenciesFrom(w, rank, walk, m, s.desired, id, w.specs[id].deps).1;
    ObjectsMean(w, walk, next, id);
    ObjectsStop(w, walk, next, id);
  }
}
