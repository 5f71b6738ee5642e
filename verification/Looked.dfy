/**
  What asking for external nodes can look at, and when that stays right although a composed resource takes the place of
  what was found: for all graphs, those with external collections too.
 */
module Looked {
  import opened Sets
  import opened Trees
  import opened Graphs
  import opened Resolver
  import opened World
  import opened Adequacy
  import opened Reconcile
  import opened Walks
  import opened Meanings
  import opened Selectors
  import opened Wiring
  import opened Sharing
  import opened Extraction
  import opened Reordering
  import opened Reconciliations
  import opened Confluence
  import opened Kept

  // ---- Oracles that cannot be told apart. ----

  /** Expressions whose values are kept while external nodes are asked for. */
  predicate LooksFor(w: World, id: ID, e: Expr) {
    id in w.specs &&
    (e in w.specs[id].includeWhen || (exists x :: x in w.specs[id].vars && !x.iteration && x.expr == e)
     || (e in w.specs[id].readyWhen && !IsMany(w.specs[id].kind) && id != INSTANCE))
  }

  ghost predicate KeysLookedFor(w: World, cache: Cache) {
    forall key | key in cache :: key.Text? && exists id, e :: LooksFor(w, id, e) && e.original == key.text
  }

  predicate SameAt(a: Oracle, b: Oracle, e: Expr, ctx: Ctx) {
    a(e.original, FilterContext(ctx, e.refs)) == b(e.original, FilterContext(ctx, e.refs))
  }

  /** The oracles agree wherever they are asked about what is observed. */
  ghost predicate Alike(w: World, other: Oracle)
    requires WellWired(w)
  {
    forall id | id in w.specs :: AlikeAt(w, other, id)
  }

  ghost predicate AlikeAt(w: World, other: Oracle, id: ID)
    requires WellWired(w) && id in w.specs
  {
    var spec := w.specs[id];
    && (forall e | e in spec.includeWhen :: SameAt(w.eval, other, e, NodeContext(w, id, NeededBy(spec.includeWhen))))
    && (forall x, only | x in spec.vars && !x.iteration && x.expr.original in only ::
          SameAt(w.eval, other, x.expr, NodeContext(w, id, FieldRefs(spec.vars, only))))
    && (forall e | e in spec.readyWhen && !IsMany(spec.kind) && id != INSTANCE && Observed(w, id) != [] ::
          SameAt(w.eval, other, e, map[id := Observed(w, id)[0]]))
    && (forall e, item | e in spec.readyWhen && IsMany(spec.kind) :: w.eval(e.original, map[EACH := item]) == other(e.original, map[EACH := item]))
  }

  /** The same world, but for an oracle that agrees. */
  ghost predicate Twins(w: World, v: World) {
    WellWired(w) && v == w.(eval := v.eval) && WellWired(v) && Alike(w, v.eval)
  }

  lemma TwinsShare(w: World, v: World)
    requires Twins(w, v)
    ensures WellWired(w) && WellWired(v) && w.specs == v.specs && w.observed == v.observed
    ensures forall id, only | id in w.specs :: NodeContext(w, id, only) == NodeContext(v, id, only)
    ensures forall id | id in w.specs :: AlikeAt(w, v.eval, id) && Observed(w, id) == Observed(v, id)
    ensures forall rank | Ranked(w, rank) :: Ranked(v, rank)
  {
  }

  lemma LookAlike(w: World, v: World, cache: Cache, id: ID, e: Expr, ctx: Ctx)
    requires Twins(w, v) && KeysLookedFor(w, cache) && LooksFor(w, id, e) && SameAt(w.eval, v.eval, e, ctx)
    ensures Look(w.eval, cache, Text(e.original), e, ctx) == Look(v.eval, cache, Text(e.original), e, ctx)
    ensures KeysLookedFor(w, Look(w.eval, cache, Text(e.original), e, ctx).1)
  {
    hide Twins, FilterContext, LooksFor;
  }

  lemma {:induction false} SingleAlike(w: World, v: World, cache: Cache, id: ID, i: nat)
    requires Twins(w, v) && KeysLookedFor(w, cache) && id in w.specs && v.specs == w.specs && id != INSTANCE && !IsMany(w.specs[id].kind)
    requires Observed(w, id) != [] && Observed(v, id) != []
    ensures SingleFrom(w, cache, id, i) == SingleFrom(v, cache, id, i) && KeysLookedFor(w, SingleFrom(w, cache, id, i).1)
    decreases |w.specs[id].readyWhen| - i
  {
    hide Twins, KeysLookedFor, Look, SameAt, Observed, NodeContext;
    TwinsShare(w, v);
    var es := w.specs[id].readyWhen;
    if i < |es| {
      var ctx := map[id := Observed(w, id)[0]];
      LookAlike(w, v, cache, id, es[i], ctx);
      SingleAlike(w, v, Look(w.eval, cache, Text(es[i].original), es[i], ctx).1, id, i + 1);
    }
  }

  lemma {:induction false} ItemsAlike(a: Oracle, b: Oracle, es: seq<Expr>, items: seq<Json>, k: nat, j: nat)
    requires forall e, item | e in es :: a(e.original, map[EACH := item]) == b(e.original, map[EACH := item])
    ensures ItemsReady(a, es, items, k, j) == ItemsReady(b, es, items, k, j)
    decreases |items| - k, |es| - j
  {
    if k < |items| {
      if j >= |es| {
        ItemsAlike(a, b, es, items, k + 1, 0);
      } else {
        ItemsAlike(a, b, es, items, k, j + 1);
      }
    }
  }

  lemma ObservedAlike(w: World, v: World, cache: Cache, desired: Desired, id: ID)
    requires Twins(w, v) && KeysLookedFor(w, cache) && id in w.specs && v.specs == w.specs && id != INSTANCE
    ensures ObservedNow(w, cache, desired, id) == ObservedNow(v, cache, desired, id)
    ensures KeysLookedFor(w, ObservedNow(w, cache, desired, id).1)
  {
    hide Twins, KeysLookedFor, SingleFrom, ItemsReady, NodeContext, SameAt;
    TwinsShare(w, v);
    if IsMany(w.specs[id].kind) {
      ItemsAlike(w.eval, v.eval, w.specs[id].readyWhen, Observed(w, id), 0, 0);
    } else if Observed(w, id) != [] {
      SingleAlike(w, v, cache, id, 0);
    }
  }

  lemma {:induction false} RefsAlike(w: World, v: World, walk: Walk, m: Memory, desired: Desired, id: ID, todo: set<ID>)
    requires Twins(w, v) && WellWired(w) && WellWired(v) && KeysLookedFor(w, m.cache) && id in w.specs && v.specs == w.specs
    requires Picks(walk) && INSTANCE !in todo
    ensures RefsFrom(w, walk, m, desired, id, todo) == RefsFrom(v, walk, m, desired, id, todo)
    ensures KeysLookedFor(w, RefsFrom(w, walk, m, desired, id, todo).1.cache)
    decreases todo
  {
    hide Twins, KeysLookedFor, ObservedNow, WellWired;
    if todo != {} {
      var d := walk(m.tick, todo);
      if d in w.specs[id].deps {
        assert d in w.specs by {
          DepsKnown(w, id);
        }
        ObservedAlike(w, v, m.cache, desired, d);
        RefsAlike(w, v, walk, Memory(ObservedNow(w, m.cache, desired, d).1, m.tick + 1), desired, id, todo - {d});
      }
    }
  }

  lemma {:induction false} ConditionsAlike(w: World, v: World, cache: Cache, id: ID, i: nat)
    requires Twins(w, v) && WellWired(w) && WellWired(v) && KeysLookedFor(w, cache) && id in w.specs && v.specs == w.specs
    ensures ConditionsFrom(w, cache, id, i) == ConditionsFrom(v, cache, id, i) && KeysLookedFor(w, ConditionsFrom(w, cache, id, i).1)
    decreases |w.specs[id].includeWhen| - i
  {
    hide Twins, KeysLookedFor, Look, SameAt, WellWired, NodeContext;
    TwinsShare(w, v);
    var es := w.specs[id].includeWhen;
    if i < |es| {
      var ctx := NodeContext(w, id, NeededBy(es));
      LookAlike(w, v, cache, id, es[i], ctx);
      ConditionsAlike(w, v, Look(w.eval, cache, Text(es[i].original), es[i], ctx).1, id, i + 1);
    }
  }

  lemma IgnoredAlike(w: World, v: World, rank: map<ID, nat>, walk: Walk, m: Memory, desired: Desired, id: ID)
    requires Twins(w, v) && WellWired(w) && WellWired(v) && KeysLookedFor(w, m.cache) && id in w.specs && v.specs == w.specs
    requires Picks(walk) && Ranked(w, rank) && Ranked(v, rank)
    ensures IgnoredNow(w, rank, walk, m, desired, id) == IgnoredNow(v, rank, walk, m, desired, id)
    ensures KeysLookedFor(w, IgnoredNow(w, rank, walk, m, desired, id).1.cache)
    decreases if id in rank then rank[id] else 0, 1
  {
    hide Twins, KeysLookedFor, WellWired, Ranked, RefsFrom, ConditionsFrom, IgnoredFrom;
    if !w.specs[id].kind.Instance? {
      IgnoredFromAlike(w, v, rank, walk, m, desired, id, w.specs[id].deps);
      var (r, next) := IgnoredFrom(w, rank, walk, m, desired, id, w.specs[id].deps);
      var needed := NeededBy(w.specs[id].includeWhen) - {INSTANCE};
      RefsAlike(w, v, walk, next, desired, id, needed);
      ConditionsAlike(w, v, RefsFrom(w, walk, next, desired, id, needed).1.cache, id, 0);
    }
  }

  lemma {:induction false} IgnoredFromAlike(w: World, v: World, rank: map<ID, nat>, walk: Walk, m: Memory, desired: Desired, id: ID, todo: set<ID>)
    requires Twins(w, v) && WellWired(w) && WellWired(v) && KeysLookedFor(w, m.cache) && id in w.specs && v.specs == w.specs
    requires Picks(walk) && Ranked(w, rank) && Ranked(v, rank) && !w.specs[id].kind.Instance? && todo <= w.specs[id].deps
    ensures IgnoredFrom(w, rank, walk, m, desired, id, todo) == IgnoredFrom(v, rank, walk, m, desired, id, todo)
    ensures KeysLookedFor(w, IgnoredFrom(w, rank, walk, m, desired, id, todo).1.cache)
    decreases if id in rank then rank[id] else 0, 0, todo
  {
    hide Twins, KeysLookedFor, IgnoredNow, WellWired;
    if todo != {} {
      var d := walk(m.tick, todo);
      DepsKnown(w, id);
      var m' := Memory(m.cache, m.tick + 1);
      IgnoredAlike(w, v, rank, walk, m', desired, d);
      IgnoredFromAlike(w, v, rank, walk, IgnoredNow(w, rank, walk, m', desired, d).1, desired, id, todo - {d});
    }
  }

  lemma ReadyAlike(w: World, v: World, rank: map<ID, nat>, walk: Walk, m: Memory, desired: Desired, id: ID)
    requires Twins(w, v) && WellWired(w) && WellWired(v) && KeysLookedFor(w, m.cache) && id in w.specs && v.specs == w.specs
    requires Picks(walk) && Ranked(w, rank) && Ranked(v, rank) && id != INSTANCE
    ensures ReadyNow(w, rank, walk, m, desired, id) == ReadyNow(v, rank, walk, m, desired, id)
    ensures KeysLookedFor(w, ReadyNow(w, rank, walk, m, desired, id).1.cache)
  {
    hide Twins, KeysLookedFor, IgnoredNow, WellWired, Ranked, ObservedNow;
    IgnoredAlike(w, v, rank, walk, m, desired, id);
    ObservedAlike(w, v, IgnoredNow(w, rank, walk, m, desired, id).1.cache, desired, id);
  }

  lemma {:induction false} DependenciesAlike(w: World, v: World, rank: map<ID, nat>, walk: Walk, m: Memory, desired: Desired, id: ID, todo: set<ID>)
    requires Twins(w, v) && WellWired(w) && WellWired(v) && KeysLookedFor(w, m.cache) && id in w.specs && v.specs == w.specs
    requires Picks(walk) && Ranked(w, rank) && Ranked(v, rank) && todo <= w.specs[id].deps
    ensures DependenciesFrom(w, rank, walk, m, desired, id, todo) == DependenciesFrom(v, rank, walk, m, desired, id, todo)
    ensures KeysLookedFor(w, DependenciesFrom(w, rank, walk, m, desired, id, todo).1.cache)
    decreases todo
  {
    hide Twins, KeysLookedFor, ReadyNow, WellWired, Ranked;
    if todo != {} {
      var d := walk(m.tick, todo);
      DepsKnown(w, id);
      var m' := Memory(m.cache, m.tick + 1);
      if d == INSTANCE {
        DependenciesAlike(w, v, rank, walk, m', desired, id, todo - {d});
      } else {
        ReadyAlike(w, v, rank, walk, m', desired, d);
        DependenciesAlike(w, v, rank, walk, ReadyNow(w, rank, walk, m', desired, d).1, desired, id, todo - {d});
      }
    }
  }

  lemma {:induction false} BaseAlike(w: World, v: World, cache: Cache, id: ID, only: set<string>, i: nat, values: Data)
    requires Twins(w, v) && WellWired(w) && WellWired(v) && KeysLookedFor(w, cache) && id in w.specs && v.specs == w.specs
    ensures BaseFrom(w, cache, id, only, i, values) == BaseFrom(v, cache, id, only, i, values)
    ensures KeysLookedFor(w, BaseFrom(w, cache, id, only, i, values).1)
    decreases |w.specs[id].vars| - i
  {
    hide Twins, KeysLookedFor, Look, SameAt, WellWired, NodeContext, FieldRefs;
    TwinsShare(w, v);
    var vars := w.specs[id].vars;
    if i < |vars| {
      if vars[i].iteration || vars[i].expr.original !in only {
        BaseAlike(w, v, cache, id, only, i + 1, values);
      } else {
        var e, ctx := vars[i].expr, NodeContext(w, id, FieldRefs(vars, only));
        assert vars[i] in vars;
        LookAlike(w, v, cache, id, e, ctx);
        var (r, c) := Look(w.eval, cache, Text(e.original), e, ctx);
        if r.Value? {
          BaseAlike(w, v, c, id, only, i + 1, values[e.original := r.v]);
        }
      }
    }
  }

  lemma FilledAlike(w: World, v: World, cache: Cache, id: ID, vars: seq<Variable>)
    requires Twins(w, v) && WellWired(w) && WellWired(v) && KeysLookedFor(w, cache) && id in w.specs && v.specs == w.specs
    ensures SingleNow(w, cache, id, vars) == SingleNow(v, cache, id, vars) && KeysLookedFor(w, SingleNow(w, cache, id, vars).1)
  {
    hide Twins, KeysLookedFor, WellWired, BaseFrom, Rendered;
    BaseAlike(w, v, cache, id, Originals(vars, false), 0, map[]);
  }

  lemma ResolvedAlike(w: World, v: World, rank: map<ID, nat>, walk: Walk, m: Memory, desired: Desired, id: ID)
    requires Twins(w, v) && WellWired(w) && WellWired(v) && KeysLookedFor(w, m.cache) && id in w.specs && v.specs == w.specs
    requires Picks(walk) && Ranked(w, rank) && Ranked(v, rank) && w.specs[id].kind.ExternalCollection?
    ensures ResolveNow(w, rank, walk, m, desired, id) == ResolveNow(v, rank, walk, m, desired, id)
    ensures KeysLookedFor(w, ResolveNow(w, rank, walk, m, desired, id).1.cache)
  {
    hide Twins, KeysLookedFor, WellWired, Ranked, SingleNow, DependenciesFrom;
    if id !in desired {
      DependenciesAlike(w, v, rank, walk, m, desired, id, w.specs[id].deps);
      FilledAlike(w, v, DependenciesFrom(w, rank, walk, m, desired, id, w.specs[id].deps).1.cache, id, w.specs[id].vars);
    }
  }

  lemma SelectAlike(w: World, v: World, rank: map<ID, nat>, walk: Walk, s: State, id: ID)
    requires Twins(w, v) && WellWired(w) && WellWired(v) && KeysLookedFor(w, s.memory.cache) && id in w.specs && v.specs == w.specs
    requires Picks(walk) && Ranked(w, rank) && Ranked(v, rank)
    ensures SelectNow(w, rank, walk, s, id) == SelectNow(v, rank, walk, s, id)
    ensures KeysLookedFor(w, SelectNow(w, rank, walk, s, id).memory.cache)
  {
    hide Twins, KeysLookedFor, WellWired, Ranked, SingleNow, ResolveNow, HasSelector;
    var spec := w.specs[id];
    if spec.kind.External? {
      FilledAlike(w, v, s.memory.cache, id, IdentityVars(spec.vars));
    } else if spec.kind.ExternalCollection? {
      ResolvedAlike(w, v, rank, walk, s.memory, s.desired, id);
    }
  }

  /** Then asking for external nodes goes the same way, and what it keeps was looked for. */
  lemma {:induction false} SelectFromAlike(w: World, v: World, rank: map<ID, nat>, walk: Walk, s: State, order: seq<ID>, k: nat)
    requires Twins(w, v) && WellWired(w) && WellWired(v) && KeysLookedFor(w, s.memory.cache) && NodesOf(w, order) && v.specs == w.specs
    requires Picks(walk) && Ranked(w, rank) && Ranked(v, rank) && k <= |order|
    ensures SelectFrom(w, rank, walk, s, order, k) == SelectFrom(v, rank, walk, s, order, k)
    ensures KeysLookedFor(w, SelectFrom(w, rank, walk, s, order, k).memory.cache)
    decreases |order| - k
  {
    hide Twins, KeysLookedFor, WellWired, Ranked, SelectNow;
    if k < |order| && s.ok {
      SelectAlike(w, v, rank, walk, s, order[k]);
      SelectFromAlike(w, v, rank, walk, SelectNow(w, rank, walk, s, order[k]), order, k + 1);
    }
  }

  // ---- What an expression may read. ----

  /** The identifiers that an expression may look at where it stands. */
  predicate Reads(w: World, id: ID, e: Expr, ids: set<string>) {
    id in w.specs &&
    (((e in w.specs[id].includeWhen || (exists x :: x in w.specs[id].vars && x.expr == e) || exists f :: f in w.specs[id].forEach && f.expr == e)
      && ids == e.refs)
     || (e in w.specs[id].readyWhen && ids == {if w.specs[id].kind.Collection? then EACH else id}))
  }

  /** Wherever the text stands, it may look at `b`. */
  ghost predicate MayRead(w: World, text: string, b: ID) {
    forall id, e, ids | Reads(w, id, e, ids) && e.original == text :: b in ids
  }

  ghost predicate RightReads(w: World, eval: Oracle) {
    forall id, e, ids | Reads(w, id, e, ids) :: ReadsOnly(eval, e.original, ids)
  }

  /** The same texts have the same references, and readyWhen expressions have none. */
  ghost predicate Unconfused(w: World) {
    && (forall id, e | id in w.specs && e in w.specs[id].readyWhen :: e.refs == {})
    && forall id, e, m, f | LooksFor(w, id, e) && m in w.specs && f in w.specs[m].readyWhen && e.original == f.original :: e == f
  }

  // ---- Right, if nothing is looked at that is replaced. ----

  lemma Unread(w: World, text: string, b: ID)
    requires RightReads(w, w.eval) && !MayRead(w, text, b)
    ensures forall c :: w.eval(text, c) == w.eval(text, c - {b})
  {
    hide Reads;
    var id, e, ids :| Reads(w, id, e, ids) && e.original == text && b !in ids;
    assert ReadsOnly(w.eval, text, ids);
    forall c ensures w.eval(text, c) == w.eval(text, c - {b}) {
      assert OnlyThese(c, ids) == OnlyThese(c - {b}, ids);
    }
  }

  lemma {:induction false} UnreadAll(w: World, text: string, c: Ctx, bs: set<ID>)
    requires RightReads(w, w.eval) && forall b | b in bs :: !MayRead(w, text, b)
    ensures w.eval(text, c) == w.eval(text, c - bs)
    decreases bs
  {
    hide RightReads, MayRead;
    if bs == {} {
      assert c - bs == c;
    } else {
      var b :| b in bs;
      Unread(w, text, b);
      UnreadAll(w, text, c - {b}, bs - {b});
      assert c - {b} - (bs - {b}) == c - bs;
    }
  }

  lemma StaysRight(u: World, w: World, cache: Cache)
    requires WellWired(u) && WellWired(w) && u.specs == w.specs && u.eval == w.eval && u.observed.Keys <= w.observed.Keys
    requires Monotone(u.eval) && RightReads(u, u.eval) && Sound(u, cache)
    requires forall key | key in cache :: key.Text? && forall b | b in Replaced(u, w) :: !MayRead(u, key.text, b)
    ensures Sound(w, cache)
  {
    hide WellWired, Monotone, RightReads, MayRead;
    var bs := Replaced(u, w);
    forall key | key in cache ensures TrueAt(w, key, cache[key]) {
      assert TrueAt(u, key, cache[key]);
      UnreadAll(u, key.text, FullContext(u), bs);
      assert Within(FullContext(u) - bs, FullContext(w));
      MonotoneHere(u.eval, key.text, FullContext(u) - bs, FullContext(w));
    }
  }

  lemma MonotoneHere(eval: Oracle, text: string, c: Ctx, d: Ctx)
    requires Monotone(eval) && Within(c, d) && eval(text, c).Value?
    ensures eval(text, d) == eval(text, c)
  {
  }

  // ---- Wrong for some oracle, if something is. ----

  /** The same oracle, except that `text` has no value without `b`, and another one if `b` stands for something else than `x`. */
  function Altered(eval: Oracle, text: string, b: ID, x: Json, v: Json): Oracle {
    (asked: string, ctx: Ctx) =>
      if asked != text || (b in ctx && ctx[b] == x) then eval(asked, ctx)
      else if b in ctx then Value(if v.Null? then Bool(true) else Null) else Pending
  }

  lemma AlteredReads(eval: Oracle, text: string, b: ID, x: Json, v: Json, asked: string, ids: set<string>)
    requires ReadsOnly(eval, asked, ids) && (asked == text ==> b in ids)
    ensures ReadsOnly(Altered(eval, text, b, x, v), asked, ids)
  {
    var other := Altered(eval, text, b, x, v);
    forall c ensures other(asked, c) == other(asked, OnlyThese(c, ids)) {
    }
  }

  lemma AlteredMonotone(eval: Oracle, text: string, b: ID, x: Json, v: Json)
    requires Monotone(eval)
    ensures Monotone(Altered(eval, text, b, x, v))
  {
  }

  lemma AlteredRightReads(w: World, eval: Oracle, text: string, b: ID, x: Json, v: Json)
    requires RightReads(w, eval) && MayRead(w, text, b)
    ensures RightReads(w, Altered(eval, text, b, x, v))
  {
    hide Reads, ReadsOnly, Altered;
    forall id, e, ids | Reads(w, id, e, ids) ensures ReadsOnly(Altered(eval, text, b, x, v), e.original, ids) {
      AlteredReads(eval, text, b, x, v, e.original, ids);
    }
  }

  /** In the world where `b` stands for `x`, the difference is not seen. */
  lemma AlteredAlike(w: World, text: string, b: ID, v: Json, asks: ID, e: Expr)
    requires WellWired(w) && Adequate(w) && Unconfused(w) && MayRead(w, text, b) && b in w.observed && EACH !in w.specs
    requires LooksFor(w, asks, e) && e.original == text
    ensures Alike(w, Altered(w.eval, text, b, ContextValue(w, b), v))
  {
    hide WellWired, Unconfused, MayRead, LooksFor, Adequate, Altered;
    forall id | id in w.specs ensures AlikeAt(w, Altered(w.eval, text, b, ContextValue(w, b), v), id) {
      AlteredAlikeAt(w, text, b, v, asks, e, id);
    }
  }

  lemma AlteredSame(eval: Oracle, text: string, b: ID, x: Json, v: Json, e: Expr, ctx: Ctx)
    requires e.original == text ==> b in FilterContext(ctx, e.refs) && FilterContext(ctx, e.refs)[b] == x
    ensures SameAt(eval, Altered(eval, text, b, x, v), e, ctx)
  {
  }

  lemma AlteredAlikeAt(w: World, text: string, b: ID, v: Json, asks: ID, e: Expr, id: ID)
    requires WellWired(w) && Adequate(w) && Unconfused(w) && MayRead(w, text, b) && b in w.observed && EACH !in w.specs
    requires LooksFor(w, asks, e) && e.original == text && id in w.specs
    ensures AlikeAt(w, Altered(w.eval, text, b, ContextValue(w, b), v), id)
  {
    hide WellWired, Adequate, Altered, ReadsOnly, SameAt, FilterContext, LooksFor, Unconfused;
    var spec, x := w.specs[id], ContextValue(w, b);
    var other := Altered(w.eval, text, b, x, v);
    assert AdequateSpec(w, id) by {
      SpecAdequate(w, id);
    }
    forall f | f in spec.includeWhen ensures SameAt(w.eval, other, f, NodeContext(w, id, NeededBy(spec.includeWhen))) {
      assert Reads(w, id, f, f.refs);
      InContext(w, id, f, NeededBy(spec.includeWhen), b);
      AlteredSame(w.eval, text, b, x, v, f, NodeContext(w, id, NeededBy(spec.includeWhen)));
    }
    forall y, only | y in spec.vars && !y.iteration && y.expr.original in only
      ensures SameAt(w.eval, other, y.expr, NodeContext(w, id, FieldRefs(spec.vars, only)))
    {
      assert Reads(w, id, y.expr, y.expr.refs);
      InContext(w, id, y.expr, FieldRefs(spec.vars, only), b);
      AlteredSame(w.eval, text, b, x, v, y.expr, NodeContext(w, id, FieldRefs(spec.vars, only)));
    }
    forall f | f in spec.readyWhen && !IsMany(spec.kind) && id != INSTANCE && Observed(w, id) != []
      ensures SameAt(w.eval, other, f, map[id := Observed(w, id)[0]])
    {
      assert Reads(w, id, f, {id});
      AlteredOwn(w, text, b, v, id, f);
    }
    forall f, item | f in spec.readyWhen && IsMany(spec.kind)
      ensures w.eval(f.original, map[EACH := item]) == other(f.original, map[EACH := item])
    {
      AlteredMany(w, text, b, asks, e, id, f);
      AlteredElsewhere(w.eval, text, b, x, v, f.original, map[EACH := item]);
    }
  }

  lemma AlteredElsewhere(eval: Oracle, text: string, b: ID, x: Json, v: Json, asked: string, ctx: Ctx)
    requires asked != text
    ensures eval(asked, ctx) == Altered(eval, text, b, x, v)(asked, ctx)
  {
  }

  lemma SpecAdequate(w: World, id: ID)
    requires Adequate(w) && id in w.specs
    ensures AdequateSpec(w, id)
  {
  }

  lemma InContext(w: World, id: ID, e: Expr, only: set<string>, b: ID)
    requires WellWired(w) && id in w.specs && e.refs <= w.specs[id].deps && e.refs <= only && b in w.observed
    ensures b in e.refs ==> var c := FilterContext(NodeContext(w, id, only), e.refs); b in c && c[b] == ContextValue(w, b)
  {
  }

  lemma AlteredOwn(w: World, text: string, b: ID, v: Json, id: ID, f: Expr)
    requires WellWired(w) && Unconfused(w) && b in w.observed && id in w.specs && f in w.specs[id].readyWhen
    requires !IsMany(w.specs[id].kind) && id != INSTANCE && Observed(w, id) != [] && (f.original == text ==> b == id)
    ensures SameAt(w.eval, Altered(w.eval, text, b, ContextValue(w, b), v), f, map[id := Observed(w, id)[0]])
  {
    hide Altered, LooksFor, SameAt;
    AlteredSame(w.eval, text, b, ContextValue(w, b), v, f, map[id := Observed(w, id)[0]]);
  }

  lemma LooksReads(w: World, id: ID, e: Expr)
    requires LooksFor(w, id, e)
    ensures Reads(w, id, e, e.refs) || (Reads(w, id, e, {id}) && !IsMany(w.specs[id].kind))
  {
  }

  /** What is said of items one by one is not kept. */
  lemma AlteredMany(w: World, text: string, b: ID, asks: ID, e: Expr, id: ID, f: Expr)
    requires WellWired(w) && Unconfused(w) && MayRead(w, text, b) && b in w.observed && EACH !in w.specs
    requires LooksFor(w, asks, e) && e.original == text && id in w.specs && f in w.specs[id].readyWhen && IsMany(w.specs[id].kind)
    ensures f.original != text
  {
    hide LooksFor;
    LooksReads(w, asks, e);
    assert Reads(w, id, f, {if w.specs[id].kind.Collection? then EACH else id});
  }

  // ---- For a whole graph. ----

  lemma NodeOf(g: ResourceGraph, w: World, id: ID) returns (n: GraphNode)
    requires Built(g) && Consistent(g) && w.specs == WiredSpecs(g, SeenIn(g)) && id in w.specs
    ensures w.specs[id] == Spec(n.kind, Linked(g, n), n.template, n.vars, n.includeWhen, n.readyWhen, n.forEach)
    ensures if id == INSTANCE then n == InstanceOf(g) else id in g.nodes && n == g.nodes[id]
  {
    hide IsTopological, SeenIn, Consistent;
    SharingUnnoticedIff(g);
    n := if id == INSTANCE then InstanceOf(g) else g.nodes[id];
    UnsharedSpec(g, n);
  }

  lemma RightReadsOf(g: ResourceGraph, w: World, eval: Oracle)
    requires Built(g) && Consistent(g) && w.specs == WiredSpecs(g, SeenIn(g)) && RightReferences(g, eval)
    ensures RightReads(w, eval)
  {
    hide IsTopological, SeenIn, Consistent, ReadsOnly, WiredSpecs;
    forall id, e, ids | Reads(w, id, e, ids) ensures ReadsOnly(eval, e.original, ids) {
      var n := NodeOf(g, w, id);
      assert RightNode(g, eval, n, id);
    }
  }

  lemma RightAgain(g: ResourceGraph, w: World, eval: Oracle, other: Oracle)
    requires Built(g) && Consistent(g) && w.specs == WiredSpecs(g, SeenIn(g)) && RightReferences(g, eval) && RightReads(w, other)
    ensures RightReferences(g, other)
  {
    hide IsTopological, SeenIn, Consistent, ReadsOnly, RightReads, Reads;
    forall id | id in g.nodes ensures RightNode(g, other, g.nodes[id], id) {
      var n := NodeOf(g, w, id);
      RightNodeAgain(g, w, eval, other, id, n);
    }
    var n := NodeOf(g, w, INSTANCE);
    RightNodeAgain(g, w, eval, other, INSTANCE, n);
  }

  lemma RightNodeAgain(g: ResourceGraph, w: World, eval: Oracle, other: Oracle, id: ID, n: GraphNode)
    requires RightNode(g, eval, n, id) && RightReads(w, other) && id in w.specs
    requires w.specs[id] == Spec(n.kind, Linked(g, n), n.template, n.vars, n.includeWhen, n.readyWhen, n.forEach)
    ensures RightNode(g, other, n, id)
  {
    hide ReadsOnly;
    forall e | e in n.includeWhen ensures ReadsOnly(other, e.original, e.refs) {
      assert Reads(w, id, e, e.refs);
    }
    forall x | x in n.vars ensures ReadsOnly(other, x.expr.original, x.expr.refs) {
      assert Reads(w, id, x.expr, x.expr.refs);
    }
    forall f | f in n.forEach ensures ReadsOnly(other, f.expr.original, f.expr.refs) {
      assert Reads(w, id, f.expr, f.expr.refs);
    }
    forall e | e in n.readyWhen ensures ReadsOnly(other, e.original, {ReadySubject(n, id)}) {
      assert Reads(w, id, e, {ReadySubject(n, id)});
    }
  }

  lemma IsUnconfused(g: ResourceGraph, w: World, eval: Oracle)
    requires Built(g) && Consistent(g) && w.specs == WiredSpecs(g, SeenIn(g)) && RightReferences(g, eval)
    ensures Unconfused(w)
  {
    hide IsTopological, SeenIn, ReadsOnly, WiredSpecs, AllAsked;
    forall id, e | id in w.specs && e in w.specs[id].readyWhen ensures e.refs == {} && e in AllAsked(g) {
      var n := NodeOf(g, w, id);
      assert RightNode(g, eval, n, id);
      NodeAsks(g, id, n, e);
    }
    forall id, e | LooksFor(w, id, e) ensures e in AllAsked(g) {
      var n := NodeOf(g, w, id);
      NodeAsks(g, id, n, e);
    }
  }

  lemma NodeAsks(g: ResourceGraph, id: ID, n: GraphNode, e: Expr)
    requires if id == INSTANCE then n == InstanceOf(g) else id in g.nodes && n == g.nodes[id]
    requires e in n.includeWhen || e in n.readyWhen || exists x :: x in n.vars && !x.iteration && x.expr == e
    ensures e in AllAsked(g)
  {
    SharedOfVars(n.vars);
    if id != INSTANCE {
      assert e in Asked(n);
    }
  }

  /**
    A value is kept of an expression that may read a node for which something else has been found than is observed in
    the end.
   */
  ghost predicate LooksAtReplaced(g: ResourceGraph, req: Request, groups: map<ID, seq<Json>>, eval: Oracle, max: int, walk: Walk,
                                  before: map<string, Composed>)
    requires Built(g) && Provides(g, req.external) && Groups(g, req, groups) && Picks(walk)
  {
    IsRunnable(g, req, groups, eval, max);
    var u := FoundWorld(g, req, eval, max);
    exists text, b :: Text(text) in Selected(g, u, walk, before).memory.cache && b in ReplacedIn(g, req, groups) && MayRead(u, text, b)
  }

  /** What is kept was looked for. */
  lemma SelectedLooked(g: ResourceGraph, u: World, walk: Walk, before: map<string, Composed>)
    requires Runnable(g, u) && Picks(walk)
    ensures KeysLookedFor(u, Selected(g, u, walk, before).memory.cache)
  {
    hide WellWired, Ranked, Ranks, SelectFrom, LooksFor;
    assert Twins(u, u);
    SelectFromAlike(u, u, Ranks(g), walk, Beginning(before), g.order, 0);
  }

  /** That is so for no walk and no oracle if nothing that is looked for may read what is replaced. */
  lemma NothingToLookAt(g: ResourceGraph, req: Request, groups: map<ID, seq<Json>>, eval: Oracle, max: int, walk: Walk,
                        before: map<string, Composed>)
    requires Built(g) && Provides(g, req.external) && Groups(g, req, groups) && Picks(walk)
    requires Elems(g.order) <= g.nodes.Keys
    requires forall id, e, b | LooksFor(FoundWorld(g, req, eval, max), id, e) && b in ReplacedIn(g, req, groups) ::
               !MayRead(FoundWorld(g, req, eval, max), e.original, b)
    ensures !LooksAtReplaced(g, req, groups, eval, max, walk, before)
  {
    hide IsTopological, Provides, Groups, FoundWorld, WellWired, Ranked, Ranks, SelectFrom, LooksFor, MayRead, ReplacedIn, Built, Picks;
    IsRunnable(g, req, groups, eval, max);
    SelectedLooked(g, FoundWorld(g, req, eval, max), walk, before);
  }

  /** The values that are kept are right if none of them may have read what is replaced. */
  lemma KeptIfUnlooked(g: ResourceGraph, req: Request, groups: map<ID, seq<Json>>, eval: Oracle, max: int, walk: Walk,
                       before: map<string, Composed>)
    requires Built(g) && Consistent(g) && Provides(g, req.external) && Groups(g, req, groups)
    requires Monotone(eval) && RightReferences(g, eval) && Picks(walk) && !LooksAtReplaced(g, req, groups, eval, max, walk, before)
    ensures Elems(g.order) <= g.nodes.Keys && KeptRight(g, req, groups, eval, max, walk, before)
  {
    hide IsTopological, Provides, Groups, WorldFor, FoundWorld, Ranks, Ranked, WellWired, Monotone, Sound, SelectFrom, RightReferences;
    hide Adequate, SelectorsFaultless, Picks, NothingManaged, Consistent, Built, NodesOf, Replaced, WiredSpecs, SeenIn, ReplacedIn;
    hide MayRead, RightReads, LooksFor;
    WorldsOf(g, req, groups, eval, max);
    var u, w := FoundWorld(g, req, eval, max), WorldFor(g, req, groups, eval, max);
    RightReadsOf(g, u, eval);
    var s := SelectedMeans(g, u, walk, before);
    SelectedLooked(g, u, walk, before);
    StaysRight(u, w, s.memory.cache);
  }

  /** Otherwise they are wrong for an oracle for which asking for external nodes goes the same way. */
  lemma WrongIfLooked(g: ResourceGraph, req: Request, groups: map<ID, seq<Json>>, eval: Oracle, max: int, walk: Walk,
                      before: map<string, Composed>)
    returns (other: Oracle)
    requires Built(g) && Consistent(g) && Provides(g, req.external) && Groups(g, req, groups) && EACH !in g.nodes
    requires Monotone(eval) && RightReferences(g, eval) && Picks(walk) && LooksAtReplaced(g, req, groups, eval, max, walk, before)
    ensures Monotone(other) && RightReferences(g, other)
    ensures Elems(g.order) <= g.nodes.Keys && !KeptRight(g, req, groups, other, max, walk, before)
    ensures Runnable(g, FoundWorld(g, req, eval, max)) && Runnable(g, FoundWorld(g, req, other, max))
    ensures Selected(g, FoundWorld(g, req, other, max), walk, before) == Selected(g, FoundWorld(g, req, eval, max), walk, before)
  {
    hide IsTopological, Provides, Groups, WorldFor, FoundWorld, Ranks, Ranked, WellWired, Monotone, Sound, SelectFrom, RightReferences;
    hide Adequate, SelectorsFaultless, Picks, NothingManaged, Consistent, Built, NodesOf, WiredSpecs, SeenIn, ReplacedIn;
    hide MayRead, RightReads, LooksFor, Altered, Unconfused, ContextValue, Alike;
    WorldsOf(g, req, groups, eval, max);
    var u := FoundWorld(g, req, eval, max);
    var cache := Selected(g, u, walk, before).memory.cache;
    var text, b :| Text(text) in cache && b in ReplacedIn(g, req, groups) && MayRead(u, text, b);
    var x, v := ContextValue(u, b), cache[Text(text)];
    other := Altered(eval, text, b, x, v);
    WorldsOf(g, req, groups, other, max);
    var u', w' := FoundWorld(g, req, other, max), WorldFor(g, req, groups, other, max);
    AlteredMonotone(eval, text, b, x, v);
    RightReadsOf(g, u, eval);
    AlteredRightReads(u, eval, text, b, x, v);
    RightAgain(g, u, eval, other);
    SelectedLooked(g, u, walk, before);
    var asks, e :| LooksFor(u, asks, e) && e.original == text;
    ConsistentAdequate(g, u);
    IsUnconfused(g, u, eval);
    EachIsNoNode(g, u);
    AlteredAlike(u, text, b, v, asks, e);
    FoundTwins(g, req, eval, other, max);
    SelectFromAlike(u, u', Ranks(g), walk, Beginning(before), g.order, 0);
    var s := SelectedMeans(g, u', walk, before);
    assert ContextValue(w', b) != x by {
      assert b in Replaced(u', w');
      TwinsStand(u, u', b);
    }
    AlteredWrong(u', w', eval, text, b, x, v, cache);
  }

  lemma EachIsNoNode(g: ResourceGraph, w: World)
    requires Elems(g.order) <= g.nodes.Keys && w.specs == WiredSpecs(g, SeenIn(g)) && EACH !in g.nodes
    ensures EACH !in w.specs
  {
    hide SeenIn;
    assert EACH[0] != INSTANCE[0];
  }

  lemma FoundTwins(g: ResourceGraph, req: Request, eval: Oracle, other: Oracle, max: int)
    requires Elems(g.order) <= g.nodes.Keys
    ensures FoundWorld(g, req, other, max) == FoundWorld(g, req, eval, max).(eval := other)
  {
    hide SeenIn, WiredSpecs;
  }

  lemma TwinsStand(u: World, v: World, b: ID)
    requires WellWired(u) && WellWired(v) && u.specs == v.specs && u.observed == v.observed && b in u.observed
    ensures ContextValue(u, b) == ContextValue(v, b)
  {
  }

  /** Where `b` stands for something else than `x`, the value is another one. */
  lemma AlteredWrong(u: World, w: World, eval: Oracle, text: string, b: ID, x: Json, v: Json, cache: Cache)
    requires WellWired(u) && WellWired(w) && w.eval == Altered(eval, text, b, x, v)
    requires b in w.observed && ContextValue(w, b) != x && Text(text) in cache && cache[Text(text)] == v
    ensures !Sound(w, cache)
  {
    hide WellWired, ContextValue;
    assert FullContext(w)[b] != x;
    assert !TrueAt(w, Text(text), v);
  }

  /**
    For every walk, the values that are kept from asking for external nodes are right for all oracles if and only if, for
    all oracles, none of them is of an expression that may read what is replaced.
   */
  lemma KeptRightExactly(g: ResourceGraph, req: Request, groups: map<ID, seq<Json>>, max: int, walk: Walk, before: map<string, Composed>)
    requires Built(g) && Consistent(g) && Provides(g, req.external) && Groups(g, req, groups) && EACH !in g.nodes && Picks(walk)
    ensures Elems(g.order) <= g.nodes.Keys
    ensures (forall eval | Monotone(eval) && RightReferences(g, eval) :: KeptRight(g, req, groups, eval, max, walk, before)) <==>
            (forall eval | Monotone(eval) && RightReferences(g, eval) :: !LooksAtReplaced(g, req, groups, eval, max, walk, before))
  {
    hide IsTopological, Provides, Groups, Monotone, RightReferences, Consistent, Built, KeptRight, LooksAtReplaced, Picks;
    BuiltKeys(g);
    forall eval | Monotone(eval) && RightReferences(g, eval)
      ensures !LooksAtReplaced(g, req, groups, eval, max, walk, before) ==> KeptRight(g, req, groups, eval, max, walk, before)
      ensures LooksAtReplaced(g, req, groups, eval, max, walk, before) ==>
                exists other :: Monotone(other) && RightReferences(g, other) && !KeptRight(g, req, groups, other, max, walk, before)
    {
      if LooksAtReplaced(g, req, groups, eval, max, walk, before) {
        var other := WrongIfLooked(g, req, groups, eval, max, walk, before);
      } else {
        KeptIfUnlooked(g, req, groups, eval, max, walk, before);
      }
    }
  }

  /** Reconciliations that succeed emit the same resources, whatever is replaced, if it was not looked at. */
  lemma UnlookedConfluent(g: ResourceGraph, req: Request, eval: Oracle, max: int, dcds: map<string, Composed>,
                          a: map<ID, seq<Json>>, walkA: Walk, outA: map<string, Composed>,
                          b: map<ID, seq<Json>>, walkB: Walk, outB: map<string, Composed>)
    requires Built(g) && Consistent(g) && Provides(g, req.external) && Elems(g.order) <= g.nodes.Keys
    requires Monotone(eval) && RightReferences(g, eval) && Groups(g, req, a) && Groups(g, req, b) && Picks(walkA) && Picks(walkB)
    requires !LooksAtReplaced(g, req, a, eval, max, walkA, dcds) && !LooksAtReplaced(g, req, b, eval, max, walkB, dcds)
    requires forall e | UsedIn(g, e) :: Indifferent(eval, e, Mixed(g, req))
    requires RunsTo(g, req, a, eval, max, walkA, dcds, true, outA) && RunsTo(g, req, b, eval, max, walkB, dcds, true, outB)
    ensures outA == outB
  {
    hide IsTopological, Provides, Groups, Monotone, RightReferences, Consistent, Built, KeptRight, LooksAtReplaced;
    hide RunsTo, Reconciled, WorldFor, UsedIn, Indifferent, Mixed, Picks;
    KeptIfUnlooked(g, req, a, eval, max, walkA, dcds);
    KeptIfUnlooked(g, req, b, eval, max, walkB, dcds);
    RunsReconciled(g, req, a, eval, max, walkA, dcds, outA);
    RunsReconciled(g, req, b, eval, max, walkB, dcds, outB);
    RightConfluent(g, req, eval, max, dcds, a, outA, b, outB);
  }
}
