/** What a run makes of the order in which the items of a collection are observed. */
module Reordering {
  import opened Trees
  import opened Graphs
  import opened Resolver
  import opened Objects
  import opened Expansion
  import opened World
  import opened Adequacy
  import opened Reconcile

  /** The same nodes are observed with the same objects, but items of the collections `mixed` may stand in another order. */
  ghost predicate Reordered(w: World, v: World, mixed: set<ID>) {
    && v == w.(observed := v.observed) && v.observed.Keys == w.observed.Keys <= w.specs.Keys
    && forall id | id in w.observed ::
         && multiset(w.observed[id]) == multiset(v.observed[id]) && (id in mixed ==> IsMany(w.specs[id].kind))
         && (id !in mixed ==> v.observed[id] == w.observed[id])
  }

  // ---- The expressions that a run evaluates; readyWhen, which looks at one object at a time, aside. ----

  /** A condition on which some managed node depends. */
  ghost predicate ConditionUsed(w: World, m: ID, e: Expr) {
    m in w.specs && !w.specs[m].kind.Instance? && e in w.specs[m].includeWhen && exists n :: Managed(w, n) && Reaches(IgnoreGraph(w), n, m)
  }

  predicate FieldUsed(w: World, n: ID, e: Expr) {
    Managed(w, n) && ((exists v :: v in w.specs[n].vars && !v.iteration && v.expr == e)
                      || exists f :: f in w.specs[n].forEach && f.expr == e)
  }

  /** A field that is evaluated for every item. */
  predicate ItemUsed(w: World, n: ID, e: Expr) {
    Managed(w, n) && exists v :: v in w.specs[n].vars && v.iteration && v.expr == e
  }

  ghost predicate Used(w: World, e: Expr) {
    exists n :: ConditionUsed(w, n, e) || FieldUsed(w, n, e) || ItemUsed(w, n, e)
  }

  /** All used expressions have the same values in both worlds. */
  ghost predicate Steady(w: World, v: World)
    requires WellWired(w) && WellWired(v) && v.specs == w.specs
  {
    && (forall n, e | ConditionUsed(w, n, e) || FieldUsed(w, n, e) :: Fresh(v, e) == Fresh(w, e))
    && forall n, e, b | ItemUsed(w, n, e) ::
         v.eval(e.original, IterationContext(v, n, b)) == w.eval(e.original, IterationContext(w, n, b))
  }

  lemma ReorderedKnown(w: World, v: World, mixed: set<ID>, id: ID)
    requires WellWired(w) && Reordered(w, v, mixed) && id in w.specs
    ensures WellWired(v) && v.specs == w.specs && v.eval == w.eval && v.maxCollectionSize == w.maxCollectionSize
    ensures IgnoreGraph(v) == IgnoreGraph(w) && v.observed.Keys == w.observed.Keys
    ensures |Observed(v, id)| == |Observed(w, id)| && forall o :: o in Observed(v, id) <==> o in Observed(w, id)
    ensures !IsMany(w.specs[id].kind) ==> Observed(v, id) == Observed(w, id)
    ensures forall c | c in w.observed && c !in mixed :: v.observed[c] == w.observed[c]
  {
    forall d | d in w.observed ensures |w.observed[d]| == |v.observed[d]| {
      assert |w.observed[d]| == |multiset(w.observed[d])| == |multiset(v.observed[d])| == |v.observed[d]|;
    }
    if id in w.observed {
      forall o ensures o in v.observed[id] <==> o in w.observed[id] {
        assert o in multiset(v.observed[id]) <==> o in multiset(w.observed[id]);
      }
    }
  }

  /** Readiness looks at single objects only. */
  lemma ReadySame(w: World, v: World, mixed: set<ID>, desired: Desired, id: ID)
    requires WellWired(w) && WellWired(v) && Reordered(w, v, mixed) && id in w.specs && AdequateSpec(w, id)
    ensures ObservedReady(v, desired, id) == ObservedReady(w, desired, id)
  {
    hide Reordered, WellWired, FullContext;
    ReorderedKnown(w, v, mixed, id);
    if !IsMany(w.specs[id].kind) {
      forall e | e in w.specs[id].readyWhen ensures Holds(v, e) == Holds(w, e) {
        assert ReadsItself(w, id, e);
        ReadsSame(w, v, mixed, e.original, {id});
      }
    }
  }

  lemma ReadsSame(w: World, v: World, mixed: set<ID>, text: string, ids: set<string>)
    requires WellWired(w) && WellWired(v) && Reordered(w, v, mixed) && ReadsOnly(w.eval, text, ids)
    requires forall id | id in ids && id in w.observed :: v.observed[id] == w.observed[id]
    ensures w.eval(text, FullContext(v)) == w.eval(text, FullContext(w))
  {
    assert OnlyThese(FullContext(v), ids) == OnlyThese(FullContext(w), ids);
    assert w.eval(text, FullContext(v)) == w.eval(text, OnlyThese(FullContext(v), ids));
    assert w.eval(text, FullContext(w)) == w.eval(text, OnlyThese(FullContext(w), ids));
  }

  lemma ConditionsSame(w: World, v: World, mixed: set<ID>, desired: Desired, m: ID)
    requires WellWired(w) && WellWired(v) && Reordered(w, v, mixed) && m in w.specs && Adequate(w)
    requires !w.specs[m].kind.Instance? ==> forall e | e in w.specs[m].includeWhen :: Fresh(v, e) == Fresh(w, e)
    ensures OwnConditions(v, desired, m) == OwnConditions(w, desired, m)
  {
    hide ObservedReady, Fresh, WellWired, AdequateSpec;
    ReorderedKnown(w, v, mixed, m);
    forall r | r in w.specs && r in w.specs[m].deps ensures ObservedReady(v, desired, r) == ObservedReady(w, desired, r) {
      ReadySame(w, v, mixed, desired, r);
    }
  }

  lemma IncludedSame(w: World, v: World, mixed: set<ID>, desired: Desired, n: ID)
    requires WellWired(w) && WellWired(v) && Reordered(w, v, mixed) && Managed(w, n) && Adequate(w) && Steady(w, v)
    ensures Included(v, desired, n) == Included(w, desired, n)
  {
    hide OwnConditions, Fresh, WellWired, Adequate, Reordered, IgnoreGraph;
    ReorderedKnown(w, v, mixed, n);
    forall m | m in w.specs && Reaches(IgnoreGraph(w), n, m) ensures OwnConditions(v, desired, m) == OwnConditions(w, desired, m) {
      forall e | !w.specs[m].kind.Instance? && e in w.specs[m].includeWhen ensures Fresh(v, e) == Fresh(w, e) {
        assert ConditionUsed(w, m, e);
      }
      ConditionsSame(w, v, mixed, desired, m);
    }
  }

  lemma {:induction false} DimensionsSame(w: World, v: World, forEach: seq<ForEach>)
    requires WellWired(w) && WellWired(v) && forall f | f in forEach :: Fresh(v, f.expr) == Fresh(w, f.expr)
    ensures DimensionsOf(v, forEach) == DimensionsOf(w, forEach)
  {
    hide Fresh, WellWired;
    if forEach != [] {
      assert forEach[0] in forEach;
      DimensionsSame(w, v, forEach[1..]);
    }
  }

  lemma {:induction false} ItemsSame(w: World, v: World, id: ID, base: Data, bindings: seq<Binding>)
    requires WellWired(w) && WellWired(v) && id in w.specs && v.specs == w.specs
    requires forall b :: ItemData(v, id, base, b) == ItemData(w, id, base, b)
    ensures ItemsOf(v, id, base, bindings) == ItemsOf(w, id, base, bindings)
    decreases |bindings|
  {
    hide WellWired, ItemData, Rendered;
    if bindings != [] {
      ItemsSame(w, v, id, base, bindings[..|bindings| - 1]);
    }
  }

  lemma ValuesSame(eval: Oracle, exprs: set<string>, c: Ctx, d: Ctx)
    requires forall o | o in exprs :: eval(o, c) == eval(o, d)
    ensures AllValues(eval, exprs, c) == AllValues(eval, exprs, d)
    ensures AllValues(eval, exprs, c) ==> Values(eval, exprs, c) == Values(eval, exprs, d)
  {
  }

  lemma BaseSame(w: World, v: World, vars: seq<Variable>)
    requires WellWired(w) && WellWired(v) && v.eval == w.eval
    requires forall x | x in vars && !x.iteration :: Fresh(v, x.expr) == Fresh(w, x.expr)
    ensures BaseData(v, vars) == BaseData(w, vars)
  {
    hide WellWired, FullContext;
    forall o | o in Originals(vars, false) ensures w.eval(o, FullContext(v)) == w.eval(o, FullContext(w)) {
      var x :| x in vars && !x.iteration && x.expr.original == o;
      assert Fresh(v, x.expr) == Fresh(w, x.expr);
    }
    ValuesSame(w.eval, Originals(vars, false), FullContext(w), FullContext(v));
  }

  lemma ItemDataSame(w: World, v: World, id: ID, base: Data, b: Binding)
    requires WellWired(w) && WellWired(v) && id in w.specs && v.specs == w.specs && v.eval == w.eval
    requires forall x | x in w.specs[id].vars && x.iteration ::
               w.eval(x.expr.original, IterationContext(v, id, b)) == w.eval(x.expr.original, IterationContext(w, id, b))
    ensures ItemData(v, id, base, b) == ItemData(w, id, base, b)
  {
    hide WellWired, IterationContext;
    var vars := w.specs[id].vars;
    forall o | o in Originals(vars, true)
      ensures w.eval(o, IterationContext(v, id, b)) == w.eval(o, IterationContext(w, id, b))
    {
      var x :| x in vars && x.iteration && x.expr.original == o;
    }
    ValuesSame(w.eval, Originals(vars, true), IterationContext(w, id, b), IterationContext(v, id, b));
  }

  lemma ObjectsSame(w: World, v: World, mixed: set<ID>, n: ID)
    requires WellWired(w) && WellWired(v) && Reordered(w, v, mixed) && Managed(w, n) && Steady(w, v)
    ensures ObjectsOf(v, n) == ObjectsOf(w, n)
  {
    hide WellWired, BaseData, DimensionsOf, ItemsOf, DistinctIdentities, Rendered, Fresh, IterationContext, ItemData;
    ReorderedKnown(w, v, mixed, n);
    var spec := w.specs[n];
    forall x | x in spec.vars && !x.iteration ensures Fresh(v, x.expr) == Fresh(w, x.expr) {
      assert FieldUsed(w, n, x.expr);
    }
    BaseSame(w, v, spec.vars);
    forall f | f in spec.forEach ensures Fresh(v, f.expr) == Fresh(w, f.expr) {
      assert FieldUsed(w, n, f.expr);
    }
    DimensionsSame(w, v, spec.forEach);
    forall base, b ensures ItemData(v, n, base, b) == ItemData(w, n, base, b) {
      forall x | x in spec.vars && x.iteration
        ensures w.eval(x.expr.original, IterationContext(v, n, b)) == w.eval(x.expr.original, IterationContext(w, n, b))
      {
        assert ItemUsed(w, n, x.expr);
      }
      ItemDataSame(w, v, n, base, b);
    }
    forall base, bindings ensures ItemsOf(v, n, base, bindings) == ItemsOf(w, n, base, bindings) {
      ItemsSame(w, v, n, base, bindings);
    }
  }

  lemma StepSame(w: World, v: World, mixed: set<ID>, desired: Desired, n: ID)
    requires WellWired(w) && WellWired(v) && Reordered(w, v, mixed) && Managed(w, n) && Adequate(w) && Steady(w, v)
    ensures Step(v, desired, n) == Step(w, desired, n)
    ensures Emitted(v, desired, n) == Emitted(w, desired, n)
  {
    hide WellWired, Reordered, Included, ObservedReady, ObjectsOf, Steady, AdequateSpec, Entries;
    ReorderedKnown(w, v, mixed, n);
    IncludedSame(w, v, mixed, desired, n);
    ObjectsSame(w, v, mixed, n);
    forall d | d in w.specs ensures ObservedReady(v, desired, d) == ObservedReady(w, desired, d) {
      ReadySame(w, v, mixed, desired, d);
    }
    if n in desired {
      EntriesSame(w, v, n, desired[n], ReadyStateOf(w, desired, n));
    }
    WellWiredDeps(w, n);
  }

  lemma WellWiredDeps(w: World, n: ID)
    requires WellWired(w) && n in w.specs
    ensures w.specs[n].deps <= w.specs.Keys
  {
  }

  lemma {:induction false} EntriesSame(w: World, v: World, n: ID, objs: seq<Json>, ready: ReadyState)
    requires n in w.specs && v.specs == w.specs
    ensures Entries(v, n, objs, ready) == Entries(w, n, objs, ready)
  {
    if objs != [] {
      EntriesSame(w, v, n, objs[..|objs| - 1], ready);
    }
  }

  /** Where all used expressions keep their values, runs may end with the same. */
  lemma ResultSame(w: World, v: World, mixed: set<ID>, before: map<string, Composed>, desired: Desired, out: map<string, Composed>)
    requires WellWired(w) && WellWired(v) && Reordered(w, v, mixed) && Adequate(w) && Steady(w, v)
    requires RunResult(v, before, desired, out)
    ensures RunResult(w, before, desired, out)
  {
    hide WellWired, Reordered, Step, Emitted, Adequate, Steady;
    ReorderedKnown(w, v, mixed, INSTANCE) by {
      InstanceThere(w);
    }
    forall n | Managed(w, n) ensures Step(v, desired, n) == Step(w, desired, n) {
      StepSame(w, v, mixed, desired, n);
    }
    forall n ensures Emitted(v, desired, n) == Emitted(w, desired, n) && Managed(v, n) == Managed(w, n) {
      if Managed(w, n) {
        StepSame(w, v, mixed, desired, n);
      } else {
        NotManaged(w, v, desired, n);
      }
    }
  }

  lemma InstanceThere(w: World)
    requires WellWired(w)
    ensures INSTANCE in w.specs
  {
  }

  lemma NotManaged(w: World, v: World, desired: Desired, n: ID)
    requires WellWired(w) && WellWired(v) && v.specs == w.specs && !Managed(w, n)
    ensures Emitted(v, desired, n) == Emitted(w, desired, n) == map[]
  {
  }

  // ---- Expressions that keep their values. ----

  /** The same values but for the order of lists. */
  ghost predicate SameButOrder(c: Ctx, d: Ctx) {
    c.Keys == d.Keys && forall x | x in c :: c[x] == d[x] || (c[x].Arr? && d[x].Arr? && multiset(c[x].items) == multiset(d[x].items))
  }

  ghost predicate BlindToOrder(eval: Oracle, text: string) {
    forall c, d | SameButOrder(c, d) :: eval(text, c) == eval(text, d)
  }

  /** The expression refers to none of the collections, or does not look at the order of their items. */
  ghost predicate Indifferent(eval: Oracle, e: Expr, mixed: set<ID>) {
    e.refs !! mixed || BlindToOrder(eval, e.original)
  }

  ghost predicate ItemsReadReferences(w: World) {
    forall n, e | ItemUsed(w, n, e) :: ReadsOnly(w.eval, e.original, e.refs)
  }

  lemma FullSameButOrder(w: World, v: World, mixed: set<ID>)
    requires WellWired(w) && WellWired(v) && Reordered(w, v, mixed)
    ensures SameButOrder(FullContext(w), FullContext(v))
  {
  }

  lemma IterationSameButOrder(w: World, v: World, mixed: set<ID>, n: ID, b: Binding)
    requires WellWired(w) && WellWired(v) && Reordered(w, v, mixed) && n in w.specs
    ensures SameButOrder(IterationContext(w, n, b), IterationContext(v, n, b))
  {
  }

  lemma IterationReadsSame(w: World, v: World, mixed: set<ID>, n: ID, b: Binding, e: Expr)
    requires WellWired(w) && WellWired(v) && Reordered(w, v, mixed) && n in w.specs && ReadsOnly(w.eval, e.original, e.refs)
    requires forall c | c in e.refs && c in w.observed :: v.observed[c] == w.observed[c]
    ensures w.eval(e.original, IterationContext(v, n, b)) == w.eval(e.original, IterationContext(w, n, b))
  {
    var c, d := IterationContext(w, n, b), IterationContext(v, n, b);
    assert OnlyThese(c, e.refs) == OnlyThese(d, e.refs);
    assert w.eval(e.original, c) == w.eval(e.original, OnlyThese(c, e.refs));
    assert w.eval(e.original, d) == w.eval(e.original, OnlyThese(d, e.refs));
  }

  lemma UsedReads(w: World, n: ID, e: Expr)
    requires WellWired(w) && Adequate(w) && (ConditionUsed(w, n, e) || FieldUsed(w, n, e))
    ensures ReadsOnly(w.eval, e.original, e.refs)
  {
    hide ReadsOnly;
    assert AdequateSpec(w, n);
  }

  lemma SteadyIfIndifferent(w: World, v: World, mixed: set<ID>)
    requires WellWired(w) && WellWired(v) && Reordered(w, v, mixed) && Adequate(w) && ItemsReadReferences(w)
    requires forall e | Used(w, e) :: Indifferent(w.eval, e, mixed)
    ensures Steady(w, v)
  {
    hide WellWired, Reordered, Adequate, ConditionUsed, FieldUsed, IterationContext, SameButOrder, ReadsOnly, FullContext;
    ReorderedKnown(w, v, mixed, INSTANCE) by {
      InstanceThere(w);
    }
    forall n, e | Used(w, e) && (ConditionUsed(w, n, e) || FieldUsed(w, n, e)) ensures Fresh(v, e) == Fresh(w, e) {
      if BlindToOrder(w.eval, e.original) {
        FullSameButOrder(w, v, mixed);
      } else {
        UsedReads(w, n, e);
        ReadsSame(w, v, mixed, e.original, e.refs);
      }
    }
    forall n, e, b | ItemUsed(w, n, e)
      ensures v.eval(e.original, IterationContext(v, n, b)) == w.eval(e.original, IterationContext(w, n, b))
    {
      assert Used(w, e);
      if BlindToOrder(w.eval, e.original) {
        IterationSameButOrder(w, v, mixed, n, b);
      } else {
        IterationReadsSame(w, v, mixed, n, b, e);
      }
    }
  }

  /**
    Runs with right references over observations that differ in the order of items only end with the same, if every
    used expression is indifferent to it.
   */
  lemma ReorderedConfluent(w: World, v: World, mixed: set<ID>, order: seq<ID>, before: map<string, Composed>,
                           a: Desired, outA: map<string, Composed>, b: Desired, outB: map<string, Composed>)
    requires WellWired(w) && WellWired(v) && Reordered(w, v, mixed) && Ordered(w, order) && Adequate(w) && ItemsReadReferences(w)
    requires forall e | Used(w, e) :: Indifferent(w.eval, e, mixed)
    requires RunResult(w, before, a, outA) && RunResult(v, before, b, outB)
    ensures outA == outB
  {
    hide WellWired, Reordered, Adequate, Used, Indifferent, RunResult, Steady, ItemsReadReferences;
    SteadyIfIndifferent(w, v, mixed);
    ResultSame(w, v, mixed, before, b, outB);
    RunsConfluent(w, order, before, a, outA, b, outB);
  }
}
