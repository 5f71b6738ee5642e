/**
  What the steps of a run mean: whichever walk is taken, the values that are kept are those that evaluation against
  everything observed gives, and every answer says something about the world. With right references it also says all.
 */
module Meanings {
  import opened Trees
  import opened Graphs
  import opened Resolver
  import opened Objects
  import opened Expansion
  import opened World
  import opened Adequacy
  import opened Reconcile
  import opened Faults
  import opened Walks

  // ---- What is kept. ----

  /** The value under the key is the one that evaluation against everything observed gives. */
  ghost predicate TrueAt(w: World, key: Key, v: Json)
    requires WellWired(w)
  {
    match key
    case Text(text) => w.eval(text, FullContext(w)) == Value(v)
    case Dim(id, index) => id in w.specs && index < |w.specs[id].forEach| ==> Fresh(w, w.specs[id].forEach[index].expr) == Value(v)
    case Unshared => true
  }

  ghost predicate Sound(w: World, cache: Cache)
    requires WellWired(w)
  {
    forall key | key in cache :: TrueAt(w, key, cache[key])
  }

  /** The key is the one under which the value of `e` is kept. */
  predicate KeyOf(w: World, key: Key, e: Expr) {
    match key
    case Text(text) => text == e.original
    case Dim(id, index) => id in w.specs && index < |w.specs[id].forEach| && w.specs[id].forEach[index].expr == e
    case Unshared => false
  }

  /** A value that a cached evaluation returns is right in whatever part of the full context it was obtained. */
  lemma LookMeans(w: World, cache: Cache, key: Key, e: Expr, ctx: Ctx)
    requires WellWired(w) && Monotone(w.eval) && Sound(w, cache) && KeyOf(w, key, e) && Within(ctx, FullContext(w))
    ensures var (r, c) := Look(w.eval, cache, key, e, ctx);
            && Sound(w, c) && (r.Value? ==> r == Fresh(w, e))
            && (w.eval(e.original, FilterContext(ctx, e.refs)) == Fresh(w, e) ==> r == Fresh(w, e))
            && (NeverFatal(w) ==> !r.Fatal?)
  {
    hide FullContext, WellWired, FilterContext, Within;
    FilterWithin(ctx, FullContext(w), e.refs);
    if key in cache {
      assert TrueAt(w, key, cache[key]);
    }
    assert key.Text? || key.Dim?;
  }

  /** Evaluation of a condition. */
  lemma JudgeMeans(w: World, cache: Cache, e: Expr, ctx: Ctx)
    requires WellWired(w) && Monotone(w.eval) && Sound(w, cache) && Within(ctx, FullContext(w))
    ensures var (v, c) := Look(w.eval, cache, Text(e.original), e, ctx);
            && Sound(w, c)
            && (Judge(v).IsTrue? ==> Holds(w, e)) && (Judge(v).IsFalse? ==> Denies(w, e))
            && (w.eval(e.original, FilterContext(ctx, e.refs)) == Fresh(w, e) ==> v == Fresh(w, e))
            && (NeverFatal(w) && YieldsBool(w, e, true) ==> !Judge(v).BoolFatal?)
  {
    hide FullContext, WellWired, FilterContext, Within, Look, Sound, Monotone;
    LookMeans(w, cache, Text(e.original), e, ctx);
    var v := Look(w.eval, cache, Text(e.original), e, ctx).0;
    if v.Value? && YieldsBool(w, e, true) {
      assert w.eval(e.original, FullContext(w)) == v;
      assert v.v.Bool? || v.v.Null?;
    }
  }

  /** Right values stay right when more is observed. */
  lemma SoundWithin(w: World, v: World, cache: Cache)
    requires WellWired(w) && WellWired(v) && Monotone(w.eval) && v.eval == w.eval && v.specs == w.specs
    requires Within(FullContext(w), FullContext(v)) && Sound(w, cache)
    ensures Sound(v, cache)
  {
    hide Monotone, Within, FullContext, WellWired;
    forall e, x | w.eval(e, FullContext(w)) == Value(x) ensures v.eval(e, FullContext(v)) == Value(x) {
      StaysValue(w, v, e);
    }
    forall key | key in cache ensures TrueAt(v, key, cache[key]) {
      assert TrueAt(w, key, cache[key]);
    }
  }

  lemma StaysValue(w: World, v: World, e: string)
    requires WellWired(w) && WellWired(v) && Monotone(w.eval) && v.eval == w.eval
    requires Within(FullContext(w), FullContext(v)) && w.eval(e, FullContext(w)).Value?
    ensures v.eval(e, FullContext(v)) == w.eval(e, FullContext(w))
  {
    hide Within, FullContext, WellWired;
  }

  // ---- Readiness. ----

  /** What an answer about readiness on the observed state means. */
  ghost predicate ReadyMeans(w: World, desired: Desired, id: ID, r: Readiness)
    requires WellWired(w) && id in w.specs
  {
    && (r.IsReady? ==> ObservedReady(w, desired, id))
    && (Adequate(w) && ObservedReady(w, desired, id) ==> r.IsReady?)
    && (ConditionsFaultless(w) ==> !r.NotCheckable?)
  }

  lemma AdequateReady(w: World, id: ID, e: Expr)
    requires WellWired(w) && id in w.specs && !IsMany(w.specs[id].kind) && id != INSTANCE && e in w.specs[id].readyWhen
    requires Observed(w, id) != []
    ensures Within(map[id := Observed(w, id)[0]], FullContext(w))
    ensures Adequate(w) ==> w.eval(e.original, FilterContext(map[id := Observed(w, id)[0]], e.refs)) == Fresh(w, e)
    ensures ConditionsFaultless(w) ==> NeverFatal(w) && YieldsBool(w, e, true)
  {
    hide ReadsOnly, FilterContext, Fresh, YieldsBool, NeverFatal;
    if Adequate(w) {
      assert AdequateSpec(w, id) && ReadsItself(w, id, e);
      ItselfIsFresh(w, id, e);
    }
    if ConditionsFaultless(w) {
      assert BooleanConditions(w, w.specs[id]);
    }
  }

  lemma {:induction false} SingleMeans(w: World, cache: Cache, id: ID, i: nat)
    requires WellWired(w) && Monotone(w.eval) && Sound(w, cache)
    requires id in w.specs && !IsMany(w.specs[id].kind) && id != INSTANCE && Observed(w, id) != [] && i <= |w.specs[id].readyWhen|
    ensures var (r, c) := SingleFrom(w, cache, id, i);
            && Sound(w, c)
            && (r.IsReady? ==> forall j | i <= j < |w.specs[id].readyWhen| :: Holds(w, w.specs[id].readyWhen[j]))
            && (Adequate(w) && (forall j | i <= j < |w.specs[id].readyWhen| :: Holds(w, w.specs[id].readyWhen[j])) ==> r.IsReady?)
            && (ConditionsFaultless(w) ==> !r.NotCheckable?)
    decreases |w.specs[id].readyWhen| - i
  {
    hide WellWired, Monotone, Sound, Look, FullContext, FilterContext, Within, Fresh, Adequate, ConditionsFaultless, YieldsBool, NeverFatal;
    var es := w.specs[id].readyWhen;
    if i < |es| {
      var ctx: Ctx := map[id := Observed(w, id)[0]];
      AdequateReady(w, id, es[i]);
      JudgeMeans(w, cache, es[i], ctx);
      SingleMeans(w, Look(w.eval, cache, Text(es[i].original), es[i], ctx).1, id, i + 1);
    }
  }

  /** An error, or a value that is not a boolean. */
  predicate BadItem(v: Eval) {
    v.Fatal? || (v.Value? && !v.v.Bool?)
  }

  lemma {:induction false} ItemsMeans(eval: Oracle, es: seq<Expr>, items: seq<Json>, k: nat, j: nat)
    requires k <= |items| && j <= |es|
    ensures var r := ItemsReady(eval, es, items, k, j);
            && (r.IsReady? <==>
                 forall a, b | k <= a < |items| && (if a == k then j else 0) <= b < |es| ::
                   eval(es[b].original, map[EACH := items[a]]) == Value(Bool(true)))
            && (r.NotCheckable? ==> !r.pending && exists a, b | 0 <= a < |items| && 0 <= b < |es| ::
                   BadItem(eval(es[b].original, map[EACH := items[a]])))
    decreases |items| - k, |es| - j
  {
    if k < |items| {
      if j == |es| {
        ItemsMeans(eval, es, items, k + 1, 0);
      } else {
        ItemsMeans(eval, es, items, k, j + 1);
      }
    }
  }

  lemma ManyMeans(w: World, desired: Desired, id: ID)
    requires WellWired(w) && id in w.specs && IsMany(w.specs[id].kind)
    ensures ManyNow(w, desired, id).IsReady? <==> ObservedReady(w, desired, id)
    ensures ConditionsFaultless(w) ==> !ManyNow(w, desired, id).NotCheckable?
  {
    hide WellWired, ItemsReady;
    var es, items := w.specs[id].readyWhen, Observed(w, id);
    ItemsMeans(w.eval, es, items, 0, 0);
    ItemsAre(w, id);
    if ConditionsFaultless(w) {
      assert BooleanConditions(w, w.specs[id]);
      forall a, b | 0 <= a < |items| && 0 <= b < |es| ensures !BadItem(w.eval(es[b].original, map[EACH := items[a]])) {
        assert es[b] in w.specs[id].readyWhen;
        assert YieldsBool(w, es[b], false);
      }
    }
  }

  lemma ItemsAre(w: World, id: ID)
    requires id in w.specs
    ensures var es, items := w.specs[id].readyWhen, Observed(w, id);
            AllItemsReady(w, id) <==>
            forall a, b | 0 <= a < |items| && 0 <= b < |es| :: w.eval(es[b].original, map[EACH := items[a]]) == Value(Bool(true))
  {
    var es, items := w.specs[id].readyWhen, Observed(w, id);
    if AllItemsReady(w, id) {
      forall a, b | 0 <= a < |items| && 0 <= b < |es| ensures w.eval(es[b].original, map[EACH := items[a]]) == Value(Bool(true)) {
        assert items[a] in items && es[b] in es && HoldsForEach(w, es[b], items[a]);
      }
    } else {
      var o, e :| o in items && e in es && !HoldsForEach(w, e, o);
      var a :| 0 <= a < |items| && items[a] == o;
      var b :| 0 <= b < |es| && es[b] == e;
    }
  }

  lemma ObservedMeans(w: World, cache: Cache, desired: Desired, id: ID)
    requires WellWired(w) && Monotone(w.eval) && Sound(w, cache) && id in w.specs && id != INSTANCE
    ensures var (r, c) := ObservedNow(w, cache, desired, id); Sound(w, c) && ReadyMeans(w, desired, id, r)
  {
    hide Monotone, Sound, SingleFrom, ManyNow, Holds, Adequate, ConditionsFaultless, AllItemsReady;
    var es := w.specs[id].readyWhen;
    if IsMany(w.specs[id].kind) {
      ManyMeans(w, desired, id);
    } else if Observed(w, id) != [] {
      SingleMeans(w, cache, id, 0);
      assert (forall e | e in es :: Holds(w, e)) <==> (forall j | 0 <= j < |es| :: Holds(w, es[j]));
    }
  }

  // ---- Ignoring. ----

  lemma RefsAre(w: World, id: ID)
    requires id in w.specs
    ensures ConditionRefs(w.specs[id]) == NeededBy(w.specs[id].includeWhen) - {INSTANCE}
    ensures Adequate(w) ==> NeededBy(w.specs[id].includeWhen) <= w.specs[id].deps
  {
    hide ReadsOnly;
    if Adequate(w) {
      assert AdequateSpec(w, id);
    }
  }

  /** The nodes that the conditions look at are dependencies, and ready on what is observed. */
  predicate RefsReady(w: World, desired: Desired, id: ID, refs: set<ID>)
    requires WellWired(w) && id in w.specs
  {
    forall r | r in refs :: r in w.specs[id].deps && ObservedReady(w, desired, r)
  }

  lemma {:induction false} RefsMeans(w: World, walk: Walk, m: Memory, desired: Desired, id: ID, todo: set<ID>)
    requires WellWired(w) && Monotone(w.eval) && Sound(w, m.cache) && id in w.specs && Picks(walk) && INSTANCE !in todo
    ensures var (r, next) := RefsFrom(w, walk, m, desired, id, todo);
            && Sound(w, next.cache) && !r.Ignored?
            && (r.NotIgnored? ==> RefsReady(w, desired, id, todo))
            && (Adequate(w) && RefsReady(w, desired, id, todo) ==> r.NotIgnored?)
            && (ConditionsFaultless(w) && todo <= w.specs[id].deps ==> r != Undecided(false))
    decreases todo
  {
    hide WellWired, Monotone, Sound, ObservedNow, Adequate, ConditionsFaultless, ObservedReady, RefsFrom;
    RefsStep(w, walk, m, desired, id, todo);
    if todo != {} {
      var d := walk(m.tick, todo);
      DepsKnown(w, id);
      if d in w.specs[id].deps {
        ObservedMeans(w, m.cache, desired, d);
        var c := ObservedNow(w, m.cache, desired, d).1;
        RefsMeans(w, walk, Memory(c, m.tick + 1), desired, id, todo - {d});
        assert todo == (todo - {d}) + {d};
      }
    }
  }

  lemma DepsKnown(w: World, id: ID)
    requires WellWired(w) && id in w.specs
    ensures w.specs[id].deps <= w.specs.Keys
    ensures w.specs[id].kind.Instance? <==> id == INSTANCE
  {
  }

  lemma ConditionFresh(w: World, id: ID, i: nat)
    requires WellWired(w) && id in w.specs && i < |w.specs[id].includeWhen|
    ensures var e, only := w.specs[id].includeWhen[i], NeededBy(w.specs[id].includeWhen);
            && Within(NodeContext(w, id, only), FullContext(w))
            && (Adequate(w) ==> w.eval(e.original, FilterContext(NodeContext(w, id, only), e.refs)) == Fresh(w, e))
            && (ConditionsFaultless(w) ==> NeverFatal(w) && YieldsBool(w, e, true))
  {
    hide ReadsOnly, FilterContext, Fresh, YieldsBool, NeverFatal, NodeContext, FullContext, Within;
    var e, only := w.specs[id].includeWhen[i], NeededBy(w.specs[id].includeWhen);
    NodeContextWithin(w, id, only);
    if Adequate(w) {
      assert AdequateSpec(w, id) && Covered(w, w.specs[id], e);
      CoveredIsFresh(w, id, e, only);
    }
    if ConditionsFaultless(w) {
      assert BooleanConditions(w, w.specs[id]);
    }
  }

  /** All conditions before the one at `i` hold, and that one has no value, although it refers to the instance only. */
  predicate PendingAt(w: World, id: ID, i: nat)
    requires WellWired(w) && id in w.specs
  {
    var es := w.specs[id].includeWhen;
    i < |es| && (forall j | 0 <= j < i :: Holds(w, es[j])) && Fresh(w, es[i]).Pending? && es[i].refs <= {INSTANCE}
  }

  lemma {:induction false} ConditionsMean(w: World, cache: Cache, id: ID, i: nat)
    requires WellWired(w) && Monotone(w.eval) && Sound(w, cache) && id in w.specs && i <= |w.specs[id].includeWhen|
    requires forall j | 0 <= j < i :: Holds(w, w.specs[id].includeWhen[j])
    ensures var (r, c) := ConditionsFrom(w, cache, id, i);
            var es := w.specs[id].includeWhen;
            && Sound(w, c)
            && (r.NotIgnored? ==> forall j | 0 <= j < |es| :: Holds(w, es[j]))
            && (r.Ignored? ==> exists j | 0 <= j < |es| :: Denies(w, es[j]))
            && (Adequate(w) && (forall j | i <= j < |es| :: Holds(w, es[j])) ==> r.NotIgnored?)
            && (Adequate(w) && (forall j | i <= j < |es| :: Holds(w, es[j]) || Denies(w, es[j])) ==> !r.Undecided?)
            && (Adequate(w) && ConditionsFaultless(w) && r == Undecided(false) ==> exists j :: PendingAt(w, id, j))
    decreases |w.specs[id].includeWhen| - i
  {
    hide WellWired, Monotone, Sound, Look, NodeContext, FullContext, FilterContext, Within, Adequate, ConditionsFaultless;
    hide YieldsBool, NeverFatal, Fresh;
    var es := w.specs[id].includeWhen;
    if i < |es| {
      var ctx := NodeContext(w, id, NeededBy(es));
      ConditionFresh(w, id, i);
      JudgeMeans(w, cache, es[i], ctx);
      var (v, c) := Look(w.eval, cache, Text(es[i].original), es[i], ctx);
      if Judge(v).IsTrue? {
        ConditionsMean(w, c, id, i + 1);
      } else if Judge(v).BoolPending? && es[i].refs - {INSTANCE} == {} && Fresh(w, es[i]).Pending? {
        assert es[i].refs <= {INSTANCE};
        assert PendingAt(w, id, i);
      }
    }
  }

  /** The node's own conditions cannot be decided, and the error does not say that data is missing. */
  ghost predicate Stuck(w: World, desired: Desired, id: ID)
    requires WellWired(w) && id in w.specs
  {
    && !w.specs[id].kind.Instance? && RefsReady(w, desired, id, ConditionRefs(w.specs[id]))
    && exists i :: PendingAt(w, id, i)
  }

  /** With right references nothing else is in the way of that condition. */
  lemma {:induction false} PendingMeans(w: World, cache: Cache, id: ID, i: nat, j: nat)
    requires WellWired(w) && Monotone(w.eval) && Sound(w, cache) && id in w.specs && Adequate(w) && i <= j && PendingAt(w, id, j)
    ensures ConditionsFrom(w, cache, id, i).0 == Undecided(false)
    decreases j - i
  {
    hide WellWired, Monotone, Sound, Look, NodeContext, FullContext, FilterContext, Within, Adequate, ConditionsFaultless;
    hide YieldsBool, NeverFatal, Fresh;
    var es := w.specs[id].includeWhen;
    var ctx := NodeContext(w, id, NeededBy(es));
    ConditionFresh(w, id, i);
    JudgeMeans(w, cache, es[i], ctx);
    if i < j {
      PendingMeans(w, Look(w.eval, cache, Text(es[i].original), es[i], ctx).1, id, i + 1, j);
    } else {
      assert es[i].refs - {INSTANCE} == {};
    }
  }

  /** What an answer about the node's own conditions means. */
  ghost predicate DecidedMeans(w: World, desired: Desired, id: ID, r: Ignoring)
    requires WellWired(w) && id in w.specs
  {
    && (r.NotIgnored? ==> OwnConditions(w, desired, id)) && (r.Ignored? ==> Denied(w, id))
    && (Adequate(w) && OwnConditions(w, desired, id) ==> r.NotIgnored?)
    && (Adequate(w) && ConditionsDecided(w, desired, id) ==> !r.Undecided?)
    && (Adequate(w) && ConditionsFaultless(w) && r == Undecided(false) ==> Stuck(w, desired, id))
    && (Adequate(w) && Stuck(w, desired, id) ==> r == Undecided(false))
  }

  lemma ConditionsNowMeans(w: World, walk: Walk, m: Memory, desired: Desired, id: ID)
    requires WellWired(w) && Monotone(w.eval) && Sound(w, m.cache) && id in w.specs && id != INSTANCE && Picks(walk)
    ensures var (r, next) := ConditionsNow(w, walk, m, desired, id); Sound(w, next.cache) && DecidedMeans(w, desired, id, r)
  {
    hide Monotone, Sound, RefsFrom, ConditionsFrom, ObservedReady, Holds, Denies, PendingAt, Adequate, ConditionsFaultless;
    hide ConditionRefs, NeededBy;
    DepsKnown(w, id);
    RefsAre(w, id);
    var es := w.specs[id].includeWhen;
    RefsMeans(w, walk, m, desired, id, NeededBy(es) - {INSTANCE});
    ConditionsMean(w, RefsFrom(w, walk, m, desired, id, NeededBy(es) - {INSTANCE}).1.cache, id, 0);
    assert (forall e | e in es :: Holds(w, e)) <==> (forall j | 0 <= j < |es| :: Holds(w, es[j]));
    assert forall j | 0 <= j < |es| :: es[j] in es;
    if Adequate(w) && Stuck(w, desired, id) {
      var j :| PendingAt(w, id, j);
      PendingMeans(w, RefsFrom(w, walk, m, desired, id, NeededBy(es) - {INSTANCE}).1.cache, id, 0, j);
    }
  }

  /** Something that the node depends on is stuck, and nothing below that prevents it from being looked at. */
  ghost predicate Blocked(w: World, desired: Desired, id: ID)
    requires WellWired(w) && id in w.specs
  {
    exists m :: m in w.specs && Reaches(IgnoreGraph(w), id, m) && StuckOnly(w, desired, m)
  }

  ghost predicate StuckOnly(w: World, desired: Desired, m: ID)
    requires WellWired(w) && m in w.specs
  {
    Stuck(w, desired, m) && forall d | d in w.specs[m].deps :: Included(w, desired, d)
  }

  /** What an answer about ignoring means. */
  ghost predicate IgnoringMeans(w: World, desired: Desired, id: ID, r: Ignoring)
    requires WellWired(w) && id in w.specs
  {
    && (r.NotIgnored? ==> Included(w, desired, id)) && (r.Ignored? ==> Excluded(w, id))
    && (Adequate(w) && Included(w, desired, id) ==> r.NotIgnored?)
    && (Adequate(w) && AllDecided(w, desired, id) ==> !r.Undecided?)
    && (Adequate(w) && ConditionsFaultless(w) && r == Undecided(false) ==> Blocked(w, desired, id))
  }

  /** In terms of the conditions themselves. */
  lemma IgnoringSays(w: World, desired: Desired, id: ID, r: Ignoring)
    requires WellWired(w) && id in w.specs && IgnoringMeans(w, desired, id, r)
    ensures r.NotIgnored? ==> forall m, e | m in w.specs && Reaches(IgnoreGraph(w), id, m) && m != "schema" && e in w.specs[m].includeWhen ::
              w.eval(e.original, FullContext(w)) == Value(Bool(true))
    ensures r.Ignored? ==> exists m, e | m in w.specs && Reaches(IgnoreGraph(w), id, m) && m != "schema" && e in w.specs[m].includeWhen ::
              w.eval(e.original, FullContext(w)) in {Value(Bool(false)), Value(Null)}
  {
    hide FullContext, Reaches, IgnoreGraph, Adequate, AllDecided, Blocked, ConditionsFaultless, ObservedReady, ConditionRefs;
    if r.NotIgnored? {
      forall m, e | m in w.specs && Reaches(IgnoreGraph(w), id, m) && m != "schema" && e in w.specs[m].includeWhen
        ensures w.eval(e.original, FullContext(w)) == Value(Bool(true))
      {
        assert OwnConditions(w, desired, m);
      }
    }
    if r.Ignored? {
      var m :| m in w.specs && Reaches(IgnoreGraph(w), id, m) && Denied(w, m);
      var e :| e in w.specs[m].includeWhen && Denies(w, e);
      assert m != INSTANCE;
    }
  }

  lemma InclusionKnown(w: World, desired: Desired, id: ID)
    requires WellWired(w) && id in w.specs && id != INSTANCE
    ensures Included(w, desired, id) <==>
            OwnConditions(w, desired, id) && forall d | d in w.specs[id].deps :: Included(w, desired, d)
    ensures forall d | d in w.specs[id].deps && Excluded(w, d) :: Excluded(w, id)
    ensures Denied(w, id) ==> Excluded(w, id)
    ensures AllDecided(w, desired, id) ==>
              ConditionsDecided(w, desired, id) && forall d | d in w.specs[id].deps :: AllDecided(w, desired, d)
    ensures forall d | d in w.specs[id].deps && Blocked(w, desired, d) :: Blocked(w, desired, id)
    ensures StuckOnly(w, desired, id) ==> Blocked(w, desired, id)
  {
    hide WellWired, Included, Excluded, OwnConditions, Denied, AllDecided, ConditionsDecided, StuckOnly;
    DepsKnown(w, id);
    if AllDecided(w, desired, id) {
      DecidedBelow(w, desired, id);
    }
    IncludedStep(w, desired, id);
    forall d | d in w.specs[id].deps && Excluded(w, d) ensures Excluded(w, id) {
      ExcludedStep(w, id, d);
    }
    forall d | d in w.specs[id].deps && Blocked(w, desired, d) ensures Blocked(w, desired, id) {
      var m :| m in w.specs && Reaches(IgnoreGraph(w), d, m) && StuckOnly(w, desired, m);
      ReachesStep(IgnoreGraph(w), id, d, m);
    }
    if Denied(w, id) {
      ExcludedHere(w, id);
    }
    ReachesItself(IgnoreGraph(w), id);
  }

  lemma InstanceMeans(w: World, desired: Desired)
    requires WellWired(w)
    ensures INSTANCE in w.specs && Included(w, desired, INSTANCE)
  {
    hide OwnConditions;
    InstanceConditions(w, desired);
    forall m | m in w.specs && Reaches(IgnoreGraph(w), INSTANCE, m) ensures OwnConditions(w, desired, m) {
      if m != INSTANCE {
        var d := ReachesFirst(IgnoreGraph(w), INSTANCE, m);
      }
    }
  }

  /** Ignoring is contagious along dependencies, but the instance is never ignored. */
  lemma {:induction false} IgnoredMeans(w: World, rank: map<ID, nat>, walk: Walk, m: Memory, desired: Desired, id: ID)
    requires WellWired(w) && Monotone(w.eval) && Sound(w, m.cache) && id in w.specs && Picks(walk) && Ranked(w, rank)
    ensures var (r, next) := IgnoredNow(w, rank, walk, m, desired, id); Sound(w, next.cache) && IgnoringMeans(w, desired, id, r)
    decreases if id in rank then rank[id] else 0, 1
  {
    hide WellWired, Monotone, Sound, ConditionsNow, Included, Excluded, OwnConditions, Denied, AllDecided, ConditionsDecided;
    hide Adequate, ConditionsFaultless, Blocked, Stuck, IgnoredFrom, Ranked;
    DepsKnown(w, id);
    if id == INSTANCE {
      InstanceMeans(w, desired);
    } else {
      var (r, next) := IgnoredFrom(w, rank, walk, m, desired, id, w.specs[id].deps);
      IgnoredDepsMean(w, rank, walk, m, desired, id, w.specs[id].deps);
      InclusionKnown(w, desired, id);
      if r.NotIgnored? {
        ConditionsNowMeans(w, walk, next, desired, id);
      }
    }
  }

  lemma {:induction false} IgnoredDepsMean(w: World, rank: map<ID, nat>, walk: Walk, m: Memory, desired: Desired, id: ID, todo: set<ID>)
    requires WellWired(w) && Monotone(w.eval) && Sound(w, m.cache) && id in w.specs && id != INSTANCE && Picks(walk) && Ranked(w, rank)
    requires todo <= w.specs[id].deps <= w.specs.Keys && !w.specs[id].kind.Instance?
    ensures var (r, next) := IgnoredFrom(w, rank, walk, m, desired, id, todo);
            && Sound(w, next.cache)
            && (r.NotIgnored? ==> forall d | d in todo :: Included(w, desired, d))
            && (r.Ignored? ==> exists d | d in todo :: Excluded(w, d))
            && (Adequate(w) && (forall d | d in todo :: Included(w, desired, d)) ==> r.NotIgnored?)
            && (Adequate(w) && (forall d | d in todo :: AllDecided(w, desired, d)) ==> !r.Undecided?)
            && (Adequate(w) && ConditionsFaultless(w) && r == Undecided(false) ==> exists d | d in todo :: Blocked(w, desired, d))
    decreases if id in rank then rank[id] else 0, 0, todo
  {
    hide WellWired, Monotone, Sound, IgnoredNow, Included, Excluded, AllDecided, Adequate, ConditionsFaultless, Blocked, IgnoredFrom;
    IgnoredStep(w, rank, walk, m, desired, id, todo);
    if todo != {} {
      var d := walk(m.tick, todo);
      IgnoredMeans(w, rank, walk, Memory(m.cache, m.tick + 1), desired, d);
      var next := IgnoredNow(w, rank, walk, Memory(m.cache, m.tick + 1), desired, d).1;
      IgnoredDepsMean(w, rank, walk, next, desired, id, todo - {d});
      assert todo == (todo - {d}) + {d};
    }
  }

  /** What an answer about readiness means, where ignored nodes count as ready. */
  ghost predicate CheckedMeans(w: World, desired: Desired, id: ID, r: Readiness)
    requires WellWired(w) && id in w.specs
  {
    && (r.IsReady? ==> Excluded(w, id) || ObservedReady(w, desired, id))
    && (Adequate(w) && Included(w, desired, id) && ObservedReady(w, desired, id) ==> r.IsReady?)
    && (Adequate(w) && ConditionsFaultless(w) && Included(w, desired, id) ==> !r.NotCheckable?)
    && (Adequate(w) && ConditionsFaultless(w) && r == NotCheckable(false) ==> Blocked(w, desired, id))
  }

  /** Ignored nodes do not block their dependents. */
  lemma ReadyNowMeans(w: World, rank: map<ID, nat>, walk: Walk, m: Memory, desired: Desired, id: ID)
    requires WellWired(w) && Monotone(w.eval) && Sound(w, m.cache) && id in w.specs && id != INSTANCE && Picks(walk) && Ranked(w, rank)
    ensures var (r, next) := ReadyNow(w, rank, walk, m, desired, id); Sound(w, next.cache) && CheckedMeans(w, desired, id, r)
  {
    hide WellWired, Monotone, Sound, IgnoredNow, ObservedNow, Included, Excluded, AllDecided, Adequate, ConditionsFaultless, Blocked;
    hide ObservedReady;
    IgnoredMeans(w, rank, walk, m, desired, id);
    ObservedMeans(w, IgnoredNow(w, rank, walk, m, desired, id).1.cache, desired, id);
  }

  // ---- Resolving. ----

  /** Everything in `todo` is excluded or ready. */
  ghost predicate Satisfied(w: World, desired: Desired, todo: set<ID>)
    requires WellWired(w) && todo <= w.specs.Keys
  {
    forall d | d in todo && d != INSTANCE :: Excluded(w, d) || ObservedReady(w, desired, d)
  }

  lemma {:induction false} DependenciesMean(w: World, rank: map<ID, nat>, walk: Walk, m: Memory, desired: Desired, id: ID, todo: set<ID>)
    requires WellWired(w) && Monotone(w.eval) && Sound(w, m.cache) && id in w.specs && Picks(walk) && Ranked(w, rank)
    requires todo <= w.specs[id].deps && todo <= w.specs.Keys
    ensures var (r, next) := DependenciesFrom(w, rank, walk, m, desired, id, todo);
            && Sound(w, next.cache)
            && (r.IsReady? ==> Satisfied(w, desired, todo))
            && (Adequate(w) && (forall d | d in todo && d != INSTANCE :: Included(w, desired, d) && ObservedReady(w, desired, d)) ==> r.IsReady?)
            && (Adequate(w) && ConditionsFaultless(w) && (forall d | d in todo :: Included(w, desired, d)) ==> !r.NotCheckable?)
            && (Adequate(w) && ConditionsFaultless(w) && r == NotCheckable(false) ==>
                 exists d | d in todo && d != INSTANCE :: Blocked(w, desired, d))
    decreases todo
  {
    hide WellWired, Monotone, Sound, ReadyNow, ObservedReady, Included, Excluded, Adequate, ConditionsFaultless, Blocked;
    if todo != {} {
      var d := walk(m.tick, todo);
      var m' := Memory(m.cache, m.tick + 1);
      var rest := todo - {d};
      assert todo == rest + {d};
      if d == INSTANCE {
        DependenciesMean(w, rank, walk, m', desired, id, rest);
      } else {
        ReadyNowMeans(w, rank, walk, m', desired, d);
        DependenciesMean(w, rank, walk, ReadyNow(w, rank, walk, m', desired, d).1, desired, id, rest);
      }
    }
  }

  /** The expressions in `only` that some field without forEach variables has. */
  function Named(vars: seq<Variable>, only: set<string>): set<string> {
    set v | v in vars && !v.iteration && v.expr.original in only :: v.expr.original
  }

  ghost predicate AllFresh(w: World, values: Data)
    requires WellWired(w)
  {
    forall o | o in values :: w.eval(o, FullContext(w)) == Value(values[o])
  }

  lemma FieldFresh(w: World, id: ID, only: set<string>, v: Variable)
    requires WellWired(w) && id in w.specs && v in w.specs[id].vars && !v.iteration && v.expr.original in only
    ensures var ctx, e := NodeContext(w, id, FieldRefs(w.specs[id].vars, only)), v.expr;
            && Within(ctx, FullContext(w))
            && (Adequate(w) ==> w.eval(e.original, FilterContext(ctx, e.refs)) == Fresh(w, e))
  {
    hide ReadsOnly, FilterContext, Fresh, NodeContext, FullContext, Within;
    var refs := FieldRefs(w.specs[id].vars, only);
    NodeContextWithin(w, id, refs);
    if Adequate(w) {
      assert AdequateSpec(w, id) && Covered(w, w.specs[id], v.expr);
      assert v.expr.refs <= refs;
      CoveredIsFresh(w, id, v.expr, refs);
    }
  }

  lemma NamedOneMore(vars: seq<Variable>, only: set<string>, i: nat)
    requires i < |vars|
    ensures Named(vars[..i + 1], only) ==
            Named(vars[..i], only) + if vars[i].iteration || vars[i].expr.original !in only then {} else {vars[i].expr.original}
    ensures !vars[i].iteration && vars[i].expr.original in only ==> vars[i].expr.original in Named(vars, only)
  {
    assert vars[..i + 1] == vars[..i] + [vars[i]];
  }

  lemma {:induction false} BaseMeans(w: World, cache: Cache, id: ID, only: set<string>, i: nat, values: Data)
    requires WellWired(w) && Monotone(w.eval) && Sound(w, cache) && id in w.specs && i <= |w.specs[id].vars|
    requires AllFresh(w, values) && values.Keys == Named(w.specs[id].vars[..i], only)
    ensures var (r, c) := BaseFrom(w, cache, id, only, i, values);
            && Sound(w, c)
            && (r.Done? ==> AllFresh(w, r.value) && r.value.Keys == Named(w.specs[id].vars, only))
            && (Adequate(w) && AllValues(w.eval, Named(w.specs[id].vars, only), FullContext(w)) ==> r.Done?)
            && (NeverFatal(w) ==> !r.Failure?)
    decreases |w.specs[id].vars| - i
  {
    hide WellWired, Monotone, Sound, Look, NodeContext, FullContext, FilterContext, Within, Adequate, NeverFatal, Named, FieldRefs;
    var vars := w.specs[id].vars;
    if i == |vars| {
      assert vars[..i] == vars;
    } else {
      NamedOneMore(vars, only, i);
      if vars[i].iteration || vars[i].expr.original !in only {
        BaseMeans(w, cache, id, only, i + 1, values);
      } else {
        var e, ctx := vars[i].expr, NodeContext(w, id, FieldRefs(vars, only));
        FieldFresh(w, id, only, vars[i]);
        LookMeans(w, cache, Text(e.original), e, ctx);
        var (v, c) := Look(w.eval, cache, Text(e.original), e, ctx);
        if v.Value? {
          BaseMeans(w, c, id, only, i + 1, values[e.original := v.v]);
        }
      }
    }
  }

  lemma NamedAll(vars: seq<Variable>)
    ensures Named(vars, Originals(vars, false)) == Originals(vars, false)
    ensures Named(vars[..0], Originals(vars, false)) == {}
  {
    forall v | v in vars && !v.iteration ensures v.expr.original in Originals(vars, false) {
    }
  }

  /** What the values of the fields without forEach variables are. */
  ghost predicate FieldsMean(w: World, id: ID, r: Attempt<Data>)
    requires WellWired(w) && id in w.specs
  {
    && (r.Done? ==> BaseData(w, w.specs[id].vars) == Some(r.value))
    && (Adequate(w) && BaseData(w, w.specs[id].vars).Some? ==> r.Done?)
    && (NeverFatal(w) ==> !r.Failure?)
  }

  /** All fields without forEach variables. */
  lemma BaseDataMeans(w: World, cache: Cache, id: ID)
    requires WellWired(w) && Monotone(w.eval) && Sound(w, cache) && id in w.specs
    ensures var (r, c) := BaseFrom(w, cache, id, Originals(w.specs[id].vars, false), 0, map[]); Sound(w, c) && FieldsMean(w, id, r)
  {
    hide WellWired, Monotone, Sound, FullContext, Adequate, NeverFatal, Named, Originals, BaseFrom;
    var vars := w.specs[id].vars;
    NamedAll(vars);
    BaseMeans(w, cache, id, Originals(vars, false), 0, map[]);
    var r := BaseFrom(w, cache, id, Originals(vars, false), 0, map[]).0;
    if r.Done? {
      assert r.value == Values(w.eval, Originals(vars, false), FullContext(w));
    }
  }

  lemma DimensionFresh(w: World, id: ID, i: nat)
    requires WellWired(w) && id in w.specs && i < |w.specs[id].forEach|
    ensures var ctx, e := NodeContext(w, id, DimensionRefs(w.specs[id].forEach)), w.specs[id].forEach[i].expr;
            && Within(ctx, FullContext(w))
            && (Adequate(w) ==> w.eval(e.original, FilterContext(ctx, e.refs)) == Fresh(w, e))
  {
    hide ReadsOnly, FilterContext, Fresh, NodeContext, FullContext, Within;
    var all := w.specs[id].forEach;
    NodeContextWithin(w, id, DimensionRefs(all));
    if Adequate(w) {
      assert AdequateSpec(w, id) && all[i] in all && Covered(w, w.specs[id], all[i].expr);
      assert all[i].expr.refs <= DimensionRefs(all);
      CoveredIsFresh(w, id, all[i].expr, DimensionRefs(all));
    }
  }

  lemma OneDimensionMore(dims: seq<Dimension>, dim: Dimension)
    requires NoneEmpty(Lengths(dims)) && dim.values != []
    ensures NoneEmpty(Lengths(dims + [dim]))
  {
  }

  /** The combinations of the dimensions, unless there are too many. */
  function Combined(w: World, dims: seq<Dimension>): Option<seq<Binding>>
    requires NoneEmpty(Lengths(dims))
  {
    if Product(Lengths(dims)) > w.maxCollectionSize then None
    else Some(seq(Product(Lengths(dims)), k requires 0 <= k < Product(Lengths(dims)) => Combination(dims, k)))
  }

  lemma {:induction false} ForEachMeans(w: World, cache: Cache, id: ID, i: nat, dims: seq<Dimension>)
    requires WellWired(w) && Monotone(w.eval) && Sound(w, cache) && id in w.specs && i <= |w.specs[id].forEach| && w.specs[id].forEach != []
    requires NoneEmpty(Lengths(dims))
    requires DimensionsOf(w, w.specs[id].forEach) == After(dims, DimensionsOf(w, w.specs[id].forEach[i..]))
    ensures var all := DimensionsOf(w, w.specs[id].forEach);
            var (r, c) := ForEachFrom(w, cache, id, i, dims);
            && Sound(w, c)
            && (r.Done? ==> if all.Available? then NoneEmpty(Lengths(all.dims)) && Combined(w, all.dims) == Some(r.value) else all.Empty? && r.value == [])
            && (Adequate(w) && (all.Empty? || (all.Available? && NoneEmpty(Lengths(all.dims)) && Combined(w, all.dims).Some?)) ==> r.Done?)
            && (NeverFatal(w) && BoundedDimensions(w, w.specs[id]) ==> !r.Failure?)
    decreases |w.specs[id].forEach| - i
  {
    hide WellWired, Monotone, Sound, Look, NodeContext, FullContext, FilterContext, Within, Adequate, NeverFatal;
    hide Product, NoneEmpty, Combination, DimensionRefs, Fresh;
    var all := w.specs[id].forEach;
    if i == |all| {
      assert all[i..] == [];
      assert dims + [] == dims;
    } else {
      var e, ctx := all[i].expr, NodeContext(w, id, DimensionRefs(all));
      assert all[i..][1..] == all[i + 1..] && all[i] in all;
      DimensionFresh(w, id, i);
      LookMeans(w, cache, Dim(id, i), e, ctx);
      var (v, c) := Look(w.eval, cache, Dim(id, i), e, ctx);
      if v.Value? && v.v.Arr? && v.v.items != [] {
        var dim := Dimension(all[i].name, v.v.items);
        AfterTwice(dims, [dim], DimensionsOf(w, all[i + 1..]));
        OneDimensionMore(dims, dim);
        ForEachMeans(w, c, id, i + 1, dims + [dim]);
      }
    }
  }

  /** What the combinations of the dimensions are. */
  ghost predicate CombinationsMean(w: World, id: ID, r: Attempt<seq<Binding>>)
    requires WellWired(w) && id in w.specs
  {
    && (r.Done? ==> Bindings(w, id) == Some(r.value))
    && (Adequate(w) && Bindings(w, id).Some? ==> r.Done?)
    && (NeverFatal(w) && BoundedDimensions(w, w.specs[id]) ==> !r.Failure?)
  }

  lemma BindingsMean(w: World, cache: Cache, id: ID)
    requires WellWired(w) && Monotone(w.eval) && Sound(w, cache) && id in w.specs
    ensures var (r, c) := ForEachNow(w, cache, id); Sound(w, c) && CombinationsMean(w, id, r)
  {
    hide WellWired, Monotone, Sound, Adequate, NeverFatal, ForEachFrom, Product, Combination, NoneEmpty;
    var all := w.specs[id].forEach;
    if all != [] {
      AfterTwice([], [], DimensionsOf(w, all));
      assert all[0..] == all;
      NoDimensions();
      ForEachMeans(w, cache, id, 0, []);
      if DimensionsOf(w, all).Available? {
        DimensionsNotEmpty(w, all);
      }
    }
  }

  lemma NoDimensions()
    ensures NoneEmpty(Lengths([]))
  {
  }

  lemma {:induction false} ItemMeans(w: World, walk: Walk, tick: nat, ctx: Ctx, todo: set<string>, values: Data)
    requires Picks(walk) && todo !! values.Keys && forall o | o in values :: w.eval(o, ctx) == Value(values[o])
    ensures var all := todo + values.Keys;
            var r := ItemFrom(w, walk, tick, ctx, todo, values).0;
            && (r.Done? <==> AllValues(w.eval, all, ctx)) && (r.Done? ==> r.value == Values(w.eval, all, ctx))
            && (NeverFatal(w) ==> !r.Failure?)
    decreases todo
  {
    if todo == {} {
      assert todo + values.Keys == values.Keys;
    } else {
      var o := walk(tick, todo);
      var v := w.eval(o, ctx);
      if v.Value? {
        ItemMeans(w, walk, tick + 1, ctx, todo - {o}, values[o := v.v]);
        assert (todo - {o}) + values[o := v.v].Keys == todo + values.Keys;
      }
    }
  }

  lemma OneItemMore(w: World, id: ID, base: Data, bindings: seq<Binding>, k: nat)
    requires WellWired(w) && id in w.specs && k < |bindings|
    ensures ItemsOf(w, id, base, bindings[..k + 1]) ==
            match (ItemsOf(w, id, base, bindings[..k]), ItemOf(w, id, base, bindings[k], k))
            case (Some(items), Some(item)) => Some(items + [item])
            case _ => None
  {
    hide ItemOf;
    assert bindings[..k + 1][..k] == bindings[..k];
  }

  lemma {:induction false} ExpandedMeans(w: World, walk: Walk, tick: nat, id: ID, base: Data, bindings: seq<Binding>, objs: seq<Json>)
    requires WellWired(w) && id in w.specs && Picks(walk) && |objs| <= |bindings|
    requires ItemsOf(w, id, base, bindings[..|objs|]) == Some(objs)
    ensures var items := ItemsOf(w, id, base, bindings);
            var r := ItemsFrom(w, walk, tick, id, base, bindings, objs).0;
            && (r.Done? <==> items.Some? && DistinctIdentities(items.value)) && (r.Done? ==> items == Some(r.value))
            && (NeverFatal(w) && Renders(w.specs[id]) && Originals(w.specs[id].vars, false) <= base.Keys && r.Failure? ==> items.Some?)
    decreases |bindings| - |objs|
  {
    hide WellWired, DistinctIdentities, ItemsOf, Rendered, WithCollectionIndex, NeverFatal, Renders, Originals, ItemFrom, Covers, AllValues;
    var spec, k := w.specs[id], |objs|;
    if k == |bindings| {
      assert bindings[..k] == bindings;
    } else {
      var ctx, todo := IterationContext(w, id, bindings[k]), Originals(spec.vars, true);
      var none: Data := map[];
      ItemMeans(w, walk, tick, ctx, todo, none);
      assert todo + none.Keys == todo;
      OneItemMore(w, id, base, bindings, k);
      var (values, next) := ItemFrom(w, walk, tick, ctx, todo, map[]);
      if ItemsOf(w, id, base, bindings).Some? {
        ItemsOfPrefix(w, id, base, bindings, k);
      }
      if values.Done? {
        var data := base + values.value;
        assert ItemData(w, id, base, bindings[k]) == Some(data);
        if Renders(spec) && Originals(spec.vars, false) <= base.Keys {
          ItemCovers(w, id, base, bindings[k], data);
          CoveredRenders(spec, data);
        }
        var obj := Rendered(spec.template, Descriptors(spec.vars), data);
        if obj.Some? {
          ExpandedMeans(w, walk, next, id, base, bindings, objs + [WithCollectionIndex(obj.value, k)]);
        }
      }
    }
  }

  lemma BaseHasOriginals(w: World, vars: seq<Variable>, base: Data)
    requires WellWired(w) && BaseData(w, vars) == Some(base)
    ensures Originals(vars, false) <= base.Keys
  {
  }

  /** What the objects of a node are. */
  ghost predicate ObjectsAre(w: World, id: ID, r: Attempt<seq<Json>>)
    requires WellWired(w) && id in w.specs
  {
    && (r.Done? ==> ObjectsOf(w, id) == Some(r.value))
    && (Adequate(w) && ObjectsOf(w, id).Some? ==> r.Done?)
    && (Faultless(w) ==> !r.Failure?)
  }

  lemma ObjectsMean(w: World, walk: Walk, m: Memory, id: ID)
    requires WellWired(w) && Monotone(w.eval) && Sound(w, m.cache) && id in w.specs && Picks(walk)
    ensures var (r, next) := ObjectsNow(w, walk, m, id); Sound(w, next.cache) && ObjectsAre(w, id, r)
  {
    hide WellWired, Monotone, Sound, Adequate, Faultless, BaseData, Bindings, ItemsOf, DistinctIdentities, BaseFrom, ForEachNow, ItemsFrom;
    hide Rendered, Renders, NeverFatal, BoundedDimensions, Originals;
    var spec := w.specs[id];
    if Faultless(w) {
      FaultlessNode(w, id);
    }
    BaseDataMeans(w, m.cache, id);
    var (base, c) := BaseFrom(w, m.cache, id, Originals(spec.vars, false), 0, map[]);
    if base.Done? {
      var data := base.value;
      BaseHasOriginals(w, spec.vars, data);
      if spec.kind.Collection? {
        BindingsMean(w, c, id);
        var bindings := ForEachNow(w, c, id).0;
        if bindings.Done? {
          assert bindings.value[..0] == [] && ItemsOf(w, id, data, []) == Some([]) by {
            NothingExpanded(w, id, data);
          }
          ExpandedMeans(w, walk, m.tick, id, data, bindings.value, []);
        }
      } else if Renders(spec) {
        BaseCovers(w, spec, data);
        CoveredRenders(spec, data);
      }
    }
  }

  lemma NothingExpanded(w: World, id: ID, base: Data)
    requires WellWired(w) && id in w.specs
    ensures ItemsOf(w, id, base, []) == Some([])
  {
  }

  /** What it means that a node is resolved or is not. */
  ghost predicate ResolvedMeans(w: World, desired: Desired, id: ID, r: Attempt<seq<Json>>)
    requires WellWired(w) && id in w.specs
  {
    && w.specs[id].deps <= w.specs.Keys
    && (r.Done? ==> ObjectsOf(w, id) == Some(r.value) && Satisfied(w, desired, w.specs[id].deps))
    && (Adequate(w) && Step(w, desired, id).Some? ==> r.Done?)
    && (Adequate(w) && Faultless(w) && Included(w, desired, id) ==> !r.Failure?)
  }

  /**
    Dependencies that are not ready are pending data; an error in checking them is fatal unless it is pending itself.
    Otherwise the node is resolved to its objects.
   */
  lemma ResolveMeans(w: World, rank: map<ID, nat>, walk: Walk, m: Memory, desired: Desired, id: ID)
    requires WellWired(w) && Monotone(w.eval) && Sound(w, m.cache) && id in w.specs && id !in desired && id != INSTANCE
    requires Picks(walk) && Ranked(w, rank)
    ensures var (r, next) := ResolveNow(w, rank, walk, m, desired, id); Sound(w, next.cache) && ResolvedMeans(w, desired, id, r)
  {
    hide WellWired, Monotone, Sound, DependenciesFrom, ObjectsNow, ObservedReady, Included, Excluded, Adequate, Faultless, Blocked, ObjectsOf;
    hide OwnConditions, ConditionsFaultless;
    DepsKnown(w, id);
    InclusionKnown(w, desired, id);
    FaultlessConditions(w);
    DependenciesMean(w, rank, walk, m, desired, id, w.specs[id].deps);
    ObjectsMean(w, walk, DependenciesFrom(w, rank, walk, m, desired, id, w.specs[id].deps).1, id);
  }

  lemma FaultlessConditions(w: World)
    requires WellWired(w)
    ensures Faultless(w) ==> ConditionsFaultless(w)
  {
  }
}
