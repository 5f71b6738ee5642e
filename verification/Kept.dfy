/**
  Which values that are obtained while external nodes are asked for are right in the end, when a composed resource may
  take the place of what was found. Graphs here have no external collections, so only identities are evaluated.
 */
module Kept {
  import opened Sets
  import opened Trees
  import opened Graphs
  import opened Resolver
  import opened World
  import opened Adequacy
  import opened Reconcile
  import opened Faults
  import opened Walks
  import opened Meanings
  import opened Identities
  import opened Selectors
  import opened Wiring
  import opened Sharing
  import opened Extraction
  import opened Reordering
  import opened Exactness
  import opened Reconciliations
  import opened Confluence

  predicate NoneForMany(w: World, order: seq<ID>) {
    forall id | id in order :: id in w.specs && !w.specs[id].kind.ExternalCollection?
  }

  /** The expression identifies an external node. */
  predicate Identifies(w: World, id: ID, e: Expr) {
    id in w.specs && w.specs[id].kind.External? && exists v :: v in IdentityVars(w.specs[id].vars) && !v.iteration && v.expr == e
  }

  ghost predicate IdentityText(w: World, order: seq<ID>, text: string) {
    exists id, e :: id in order && Identifies(w, id, e) && e.original == text
  }

  // ---- What is kept. ----

  lemma {:induction false} BaseKeys(w: World, cache: Cache, id: ID, only: set<string>, i: nat, values: Data)
    requires WellWired(w) && id in w.specs && i <= |w.specs[id].vars|
    ensures var (r, c) := BaseFrom(w, cache, id, only, i, values);
            && (forall key | key in cache :: key in c)
            && (forall key | key in c && key !in cache :: key.Text? && key.text in only)
            && (r.Done? ==> forall v | v in w.specs[id].vars[i..] && !v.iteration && v.expr.original in only :: Text(v.expr.original) in c)
    decreases |w.specs[id].vars| - i
  {
    hide WellWired, NodeContext, FieldRefs;
    var vars := w.specs[id].vars;
    if i < |vars| {
      assert vars[i..] == [vars[i]] + vars[i + 1..];
      if vars[i].iteration || vars[i].expr.original !in only {
        BaseKeys(w, cache, id, only, i + 1, values);
      } else {
        var e := vars[i].expr;
        var (v, c) := Look(w.eval, cache, Text(e.original), e, NodeContext(w, id, FieldRefs(vars, only)));
        if v.Value? {
          assert Text(e.original) in c;
          BaseKeys(w, c, id, only, i + 1, values[e.original := v.v]);
        }
      }
    }
  }

  lemma IdentityKeys(w: World, cache: Cache, id: ID)
    requires WellWired(w) && id in w.specs && w.specs[id].kind.External?
    ensures var (obj, c) := SingleNow(w, cache, id, IdentityVars(w.specs[id].vars));
            && (forall key | key in cache :: key in c)
            && (forall key | key in c && key !in cache :: key.Text? && exists e :: Identifies(w, id, e) && e.original == key.text)
            && (obj.Done? ==> forall e | Identifies(w, id, e) :: Text(e.original) in c)
  {
    hide WellWired, BaseFrom, Rendered, IdentityVars;
    var vars := w.specs[id].vars;
    var only := Originals(IdentityVars(vars), false);
    IdentityVarsAre(vars);
    BaseKeys(w, cache, id, only, 0, map[]);
    assert vars[0..] == vars;
    var c := BaseFrom(w, cache, id, only, 0, map[]).1;
    forall key | key in c && key !in cache ensures exists e :: Identifies(w, id, e) && e.original == key.text {
      var v :| v in IdentityVars(vars) && !v.iteration && v.expr.original == key.text;
      assert Identifies(w, id, v.expr);
    }
  }

  /** Only identities are kept, and those of every node that could be identified. */
  lemma {:induction false} SelectKeys(w: World, rank: map<ID, nat>, walk: Walk, s: State, order: seq<ID>, k: nat)
    requires WellWired(w) && Picks(walk) && Ranked(w, rank) && NoneForMany(w, order) && k <= |order|
    requires forall key | key in s.memory.cache :: key.Text? && IdentityText(w, order, key.text)
    ensures var e := SelectFrom(w, rank, walk, s, order, k);
            forall key | key in e.memory.cache :: key.Text? && IdentityText(w, order, key.text)
    decreases |order| - k
  {
    hide WellWired, Ranked, SingleNow, Identifies, ResolveNow;
    if k < |order| && s.ok {
      var id := order[k];
      assert id in order;
      if w.specs[id].kind.External? {
        IdentityKeys(w, s.memory.cache, id);
      }
      SelectKeys(w, rank, walk, SelectNow(w, rank, walk, s, id), order, k + 1);
    }
  }

  // ---- Right, if no identity refers to what is replaced. ----

  /** Nodes that stand for something else in the end. */
  function Replaced(u: World, w: World): set<ID>
    requires WellWired(u) && WellWired(w)
  {
    set id | id in u.observed && id in w.observed && ContextValue(u, id) != ContextValue(w, id)
  }

  lemma UnreplacedWithin(u: World, w: World, refs: set<string>)
    requires WellWired(u) && WellWired(w) && u.specs == w.specs && u.observed.Keys <= w.observed.Keys && refs !! Replaced(u, w)
    ensures Within(OnlyThese(FullContext(u), refs), OnlyThese(FullContext(w), refs))
  {
  }

  lemma ValueStays(u: World, w: World, e: Expr)
    requires WellWired(u) && WellWired(w) && u.specs == w.specs && u.eval == w.eval && u.observed.Keys <= w.observed.Keys
    requires Monotone(u.eval) && ReadsOnly(u.eval, e.original, e.refs) && e.refs !! Replaced(u, w)
    ensures Fresh(u, e).Value? ==> Fresh(w, e) == Fresh(u, e)
  {
    hide FullContext, WellWired, OnlyThese, Within;
    UnreplacedWithin(u, w, e.refs);
    assert Fresh(u, e) == u.eval(e.original, OnlyThese(FullContext(u), e.refs));
    assert Fresh(w, e) == u.eval(e.original, OnlyThese(FullContext(w), e.refs));
  }

  lemma IdentityReads(w: World, id: ID, e: Expr)
    requires Adequate(w) && Identifies(w, id, e)
    ensures ReadsOnly(w.eval, e.original, e.refs) && e.refs <= w.specs[id].deps
  {
    hide ReadsOnly;
    IdentityVarsAre(w.specs[id].vars);
    assert AdequateSpec(w, id);
  }

  lemma IdentitiesKept(u: World, w: World, order: seq<ID>, cache: Cache)
    requires WellWired(u) && WellWired(w) && u.specs == w.specs && u.eval == w.eval && u.observed.Keys <= w.observed.Keys
    requires Monotone(u.eval) && Adequate(u) && Sound(u, cache)
    requires forall key | key in cache :: key.Text? && IdentityText(u, order, key.text)
    requires forall id, e | id in order && Identifies(u, id, e) :: e.refs !! Replaced(u, w)
    ensures Sound(w, cache)
  {
    hide FullContext, WellWired, Monotone, Adequate, ReadsOnly, Identifies, Replaced;
    forall key | key in cache ensures TrueAt(w, key, cache[key]) {
      var id, e :| id in order && Identifies(u, id, e) && e.original == key.text;
      assert TrueAt(u, key, cache[key]);
      IdentityReads(u, id, e);
      ValueStays(u, w, e);
      assert Fresh(u, e) == u.eval(e.original, FullContext(u)) && Fresh(w, e) == w.eval(e.original, FullContext(w));
    }
  }

  // ---- Wrong for some oracle, if one does. ----

  /** Everything has a constant value, except that `told` has another one if `b` stands for something else than `x`. */
  function Echo(told: string, b: ID, x: Json, texts: Texts): Oracle {
    (text: string, ctx: Ctx) =>
      if text != told then Value(Good(texts, text))
      else if b !in ctx then Pending
      else if ctx[b] == x then Value(Good(texts, text))
      else Value(if text in texts.dimensions then Arr([]) else if text in texts.labels then Str("-") else Bool(false))
  }

  lemma EchoReads(told: string, b: ID, x: Json, texts: Texts, text: string, ids: set<string>)
    requires text == told ==> b in ids
    ensures ReadsOnly(Echo(told, b, x, texts), text, ids) && Monotone(Echo(told, b, x, texts))
  {
    var eval := Echo(told, b, x, texts);
    forall ctx ensures eval(text, ctx) == eval(text, OnlyThese(ctx, ids)) {
    }
  }

  /** The oracle of the world tells by `e` whether `b` stands for `x`. */
  ghost predicate Echoing(w: World, e: Expr, b: ID, x: Json) {
    && WellWired(w) && Proper(w) && w.eval == Echo(e.original, b, x, TextsOf(w)) && b in e.refs
    && exists id :: id in w.specs && HasExpr(w.specs[id], e)
  }

  lemma EchoTexts(w: World, e: Expr, b: ID, x: Json, id: ID)
    requires Echoing(w, e, b, x) && id in w.specs
    ensures ProperSpec(w, w.specs[id]) && b in e.refs
    ensures forall f | HasExpr(w.specs[id], f) && f.original == e.original :: f.refs == e.refs
    ensures forall f | f in w.specs[id].readyWhen :: f.original != e.original
  {
    hide ProperSpec, Echo;
    var a :| a in w.specs && HasExpr(w.specs[a], e);
    assert ProperSpec(w, w.specs[id]);
    forall f | f in w.specs[id].readyWhen ensures f.original != e.original {
      assert HasExpr(w.specs[id], f);
      ReadyWhenNone(w, w.specs[id], f);
    }
  }

  lemma EchoEval(w: World, e: Expr, b: ID, x: Json)
    requires Echoing(w, e, b, x)
    ensures WellWired(w) && w.eval == Echo(e.original, b, x, TextsOf(w)) && Monotone(w.eval)
  {
    hide Proper, Monotone, Echo;
    EchoReads(e.original, b, x, TextsOf(w), "", {b});
  }

  lemma EchoSpec(w: World, e: Expr, b: ID, x: Json, id: ID)
    requires Echoing(w, e, b, x) && id in w.specs
    ensures WellWired(w) && AdequateSpec(w, id) && BooleanConditions(w, w.specs[id]) && SelectorFaultless(w, w.specs[id])
    ensures forall f | HasExpr(w.specs[id], f) :: ReadsOnly(w.eval, f.original, f.refs)
    ensures forall f, ids | f in w.specs[id].readyWhen :: ReadsOnly(w.eval, f.original, ids)
  {
    hide Echoing, ReadsOnly, Renders, Monotone, SelectorFaultless, FullContext, DimensionTexts, LabelTexts;
    EchoTexts(w, e, b, x, id);
    EchoEval(w, e, b, x);
    hide Echo;
    forall f | HasExpr(w.specs[id], f) ensures ReadsOnly(w.eval, f.original, f.refs) {
      EchoReads(e.original, b, x, TextsOf(w), f.original, f.refs);
    }
    forall f, ids | f in w.specs[id].readyWhen ensures ReadsOnly(w.eval, f.original, ids) {
      EchoReads(e.original, b, x, TextsOf(w), f.original, ids);
    }
    assert forall f | f in w.specs[id].forEach :: HasExpr(w.specs[id], f.expr);
    assert forall v | v in w.specs[id].vars :: HasExpr(w.specs[id], v.expr);
    forall f: Expr, nullable | f.original !in DimensionTexts(w) + LabelTexts(w) ensures YieldsBool(w, f, nullable) {
      EchoBoolean(w, e, b, x, f, nullable);
    }
    forall text | text in LabelTexts(w) && w.eval(text, FullContext(w)).Value? ensures w.eval(text, FullContext(w)).v.Str? {
      EchoLabel(w, e, b, x, text, FullContext(w));
    }
    GoodSelector(w, w, id);
  }

  lemma EchoLabel(w: World, e: Expr, b: ID, x: Json, text: string, ctx: Ctx)
    requires Echoing(w, e, b, x) && text in LabelTexts(w) && w.eval(text, ctx).Value?
    ensures w.eval(text, ctx).v.Str?
  {
    hide ProperSpec, DimensionTexts, LabelTexts;
  }

  lemma EchoBoolean(w: World, e: Expr, b: ID, x: Json, f: Expr, nullable: bool)
    requires Echoing(w, e, b, x) && f.original !in DimensionTexts(w) + LabelTexts(w)
    ensures YieldsBool(w, f, nullable) && NeverFatal(w)
  {
    hide Proper, DimensionTexts, LabelTexts;
  }

  lemma EchoFaultless(w: World, e: Expr, b: ID, x: Json)
    requires Echoing(w, e, b, x)
    ensures WellWired(w) && Monotone(w.eval) && Adequate(w) && SelectorsFaultless(w)
  {
    hide Echoing, AdequateSpec, BooleanConditions, SelectorFaultless, Monotone;
    EchoEval(w, e, b, x);
    forall id | id in w.specs ensures AdequateSpec(w, id) && BooleanConditions(w, w.specs[id]) && SelectorFaultless(w, w.specs[id]) {
      EchoSpec(w, e, b, x, id);
    }
    assert NeverFatal(w) by {
      EchoNeverFatal(w, e, b, x);
    }
  }

  lemma EchoNeverFatal(w: World, e: Expr, b: ID, x: Json)
    requires Echoing(w, e, b, x)
    ensures NeverFatal(w)
  {
    hide Proper;
  }

  /** Whatever is observed, every expression has a value if `b` is. */
  lemma EchoFresh(w: World, e: Expr, b: ID, x: Json, text: string)
    requires Echoing(w, e, b, x) && b in w.observed
    ensures w.eval(text, FullContext(w)).Value?
    ensures w.eval(e.original, FullContext(w)) == Value(Good(TextsOf(w), e.original)) <==> ContextValue(w, b) == x
  {
    hide Proper, TextsOf;
    assert b in FullContext(w) && FullContext(w)[b] == ContextValue(w, b);
  }

  lemma EchoIdentified(w: World, cache: Cache, id: ID, e: Expr, b: ID, x: Json)
    requires Echoing(w, e, b, x) && b in w.observed && WellWired(w) && Sound(w, cache) && id in w.specs && w.specs[id].kind.External?
    ensures SingleNow(w, cache, id, IdentityVars(w.specs[id].vars)).0.Done?
  {
    hide Echoing, Monotone, Sound, BaseFrom, FullContext, Rendered, Renders, NeverFatal, Adequate, IdentityVars, WellWired;
    EchoFaultless(w, e, b, x);
    var spec := w.specs[id];
    var vars := IdentityVars(spec.vars);
    var only := Originals(vars, false);
    assert Named(spec.vars[..0], only) == {};
    BaseMeans(w, cache, id, only, 0, map[]);
    forall o | o in Named(spec.vars, only) ensures w.eval(o, FullContext(w)).Value? {
      EchoFresh(w, e, b, x, o);
    }
    NeverFatalHere(w);
    IdentityMeans(w, cache, id);
  }

  /** Every node in the order is reached, so its identity is kept. */
  lemma {:induction false} EchoKept(w: World, rank: map<ID, nat>, walk: Walk, s: State, order: seq<ID>, k: nat, e: Expr, b: ID, x: Json, id: ID)
    requires Echoing(w, e, b, x) && b in w.observed && WellWired(w) && Sound(w, s.memory.cache) && Picks(walk) && Ranked(w, rank)
    requires NodesOf(w, order) && NoneForMany(w, order) && k <= |order| && s.ok && s.desired == map[]
    requires id in order[k..] && Identifies(w, id, e)
    ensures Text(e.original) in SelectFrom(w, rank, walk, s, order, k).memory.cache
    decreases |order| - k
  {
    hide Echoing, WellWired, Sound, Ranked, SingleNow, Identifies, ResolveNow, Monotone, Adequate, SelectorsFaultless, NodesOf, IdentityText;
    assert order[k..] != [];
    var here := order[k];
    assert here in order && order[k..] == [here] + order[k + 1..];
    assert here in w.specs;
    EchoFaultless(w, e, b, x);
    var next := SelectNow(w, rank, walk, s, here);
    if w.specs[here].kind.External? {
      EchoIdentified(w, s.memory.cache, here, e, b, x);
      IdentityMeans(w, s.memory.cache, here);
      IdentityKeys(w, s.memory.cache, here);
    }
    assert next.ok && next.desired == map[] && Sound(w, next.memory.cache);
    if here == id {
      assert w.specs[id].kind.External? by {
        IdentifiesExternal(w, id, e);
      }
      KeysStay(w, rank, walk, next, order, k + 1);
    } else {
      EchoKept(w, rank, walk, next, order, k + 1, e, b, x, id);
    }
  }

  lemma IdentifiesExternal(w: World, id: ID, e: Expr)
    requires Identifies(w, id, e)
    ensures id in w.specs && w.specs[id].kind.External?
  {
  }

  lemma {:induction false} KeysStay(w: World, rank: map<ID, nat>, walk: Walk, s: State, order: seq<ID>, k: nat)
    requires WellWired(w) && Picks(walk) && Ranked(w, rank) && NoneForMany(w, order) && k <= |order|
    ensures forall key | key in s.memory.cache :: key in SelectFrom(w, rank, walk, s, order, k).memory.cache
    decreases |order| - k
  {
    hide WellWired, Ranked, SingleNow, Identifies, ResolveNow;
    if k < |order| && s.ok {
      var id := order[k];
      assert id in order;
      if w.specs[id].kind.External? {
        IdentityKeys(w, s.memory.cache, id);
      }
      KeysStay(w, rank, walk, SelectNow(w, rank, walk, s, id), order, k + 1);
    }
  }

  // ---- For a whole graph. ----

  /** No external node stands for many. */
  predicate NoExternalCollections(g: ResourceGraph) {
    forall id | id in g.nodes :: !g.nodes[id].kind.ExternalCollection?
  }

  /** Nodes for which something else has been found than is observed in the end. */
  ghost function ReplacedIn(g: ResourceGraph, req: Request, groups: map<ID, seq<Json>>): set<ID>
    requires Built(g) && Provides(g, req.external) && Groups(g, req, groups)
  {
    IsRunnable(g, req, groups, Silent, 0);
    Replaced(FoundWorld(g, req, Silent, 0), WorldFor(g, req, groups, Silent, 0))
  }

  function Silent(text: string, ctx: Ctx): Eval {
    Pending
  }

  /** No field that identifies an external node refers to a node that is replaced. */
  ghost predicate IdentitiesUnreplaced(g: ResourceGraph, req: Request, groups: map<ID, seq<Json>>)
    requires Built(g) && Provides(g, req.external) && Groups(g, req, groups)
  {
    forall id, v | id in g.nodes && g.nodes[id].kind.External? && v in IdentityVars(g.nodes[id].vars) && !v.iteration ::
      v.expr.refs !! ReplacedIn(g, req, groups)
  }

  /** The worlds before and after, and what they have in common. */
  lemma WorldsOf(g: ResourceGraph, req: Request, groups: map<ID, seq<Json>>, eval: Oracle, max: int)
    requires Built(g) && Provides(g, req.external) && Groups(g, req, groups)
    ensures Elems(g.order) <= g.nodes.Keys
    ensures var u, w := FoundWorld(g, req, eval, max), WorldFor(g, req, groups, eval, max);
            && Runnable(g, u) && Runnable(g, w) && u.specs == w.specs == WiredSpecs(g, SeenIn(g)) && u.eval == w.eval == eval
            && u.maxCollectionSize == w.maxCollectionSize == max
            && u.observed.Keys <= w.observed.Keys && Replaced(u, w) == ReplacedIn(g, req, groups)
  {
    hide IsTopological, Provides, Groups, WorldFor, Ranks, Ranked, WiredSpecs, SeenIn, NotEmpty, WellWired, ContextValue, Built, NodesOf;
    IsRunnable(g, req, groups, eval, max);
    IsRunnable(g, req, groups, Silent, 0);
    ObservedOf(g, req, groups, eval, max);
    ObservedOf(g, req, groups, Silent, 0);
    ObservedOf(g, req.(composed := map[]), map[], eval, max);
    ObservedOf(g, req.(composed := map[]), map[], Silent, 0);
    var u, w := FoundWorld(g, req, eval, max), WorldFor(g, req, groups, eval, max);
    SameReplaced(u, w, FoundWorld(g, req, Silent, 0), WorldFor(g, req, groups, Silent, 0));
  }

  lemma SameReplaced(u: World, w: World, u': World, w': World)
    requires WellWired(u) && WellWired(w) && WellWired(u') && WellWired(w')
    requires u.specs == u'.specs && w.specs == w'.specs && u.observed == u'.observed && w.observed == w'.observed
    ensures Replaced(u, w) == Replaced(u', w')
  {
  }

  lemma IdentifiesIn(g: ResourceGraph, u: World, id: ID, e: Expr)
    requires Built(g) && Consistent(g) && u.specs == WiredSpecs(g, SeenIn(g))
    ensures Identifies(u, id, e) ==> id in g.nodes
    ensures id in g.nodes ==> u.specs.Keys == g.nodes.Keys + {INSTANCE} && u.specs[id].kind == g.nodes[id].kind
    ensures id in g.nodes ==>
              (Identifies(u, id, e) <==> g.nodes[id].kind.External? && exists v :: v in IdentityVars(g.nodes[id].vars) && !v.iteration && v.expr == e)
  {
    hide IsTopological, SeenIn, Consistent, IdentityVars;
    SharingUnnoticedIff(g);
    if id in g.nodes {
      UnsharedSpec(g, g.nodes[id]);
      assert u.specs[id] == WiredSpec(g, map[], g.nodes[id]);
    }
  }

  lemma OrderForOne(g: ResourceGraph, u: World)
    requires Built(g) && Consistent(g) && u.specs == WiredSpecs(g, SeenIn(g)) && NoExternalCollections(g)
    ensures NoneForMany(u, g.order)
  {
    hide IsTopological, WiredSpecs, SeenIn, Consistent, IdentityVars;
    BuiltKeys(g);
    forall id | id in g.order ensures id in u.specs && !u.specs[id].kind.ExternalCollection? {
      assert id in Elems(g.order);
      IdentifiesIn(g, u, id, Expr("", {}));
    }
  }

  /** Right whatever the oracle and the walk. */
  lemma KeptIfUnreplaced(g: ResourceGraph, req: Request, groups: map<ID, seq<Json>>, eval: Oracle, max: int, walk: Walk,
                         before: map<string, Composed>)
    requires Built(g) && Consistent(g) && Provides(g, req.external) && Groups(g, req, groups) && NoExternalCollections(g)
    requires Monotone(eval) && RightReferences(g, eval) && Picks(walk) && IdentitiesUnreplaced(g, req, groups)
    ensures Elems(g.order) <= g.nodes.Keys && KeptRight(g, req, groups, eval, max, walk, before)
  {
    hide IsTopological, Provides, Groups, WorldFor, FoundWorld, Ranks, Ranked, WellWired, Monotone, Sound, SelectFrom, RightReferences;
    hide Adequate, SelectorsFaultless, Picks, NothingManaged, Consistent, Built, NodesOf, Replaced, IdentityText, WiredSpecs, SeenIn;
    hide NoExternalCollections, Identifies, ReplacedIn, IdentityVars;
    WorldsOf(g, req, groups, eval, max);
    var u, w := FoundWorld(g, req, eval, max), WorldFor(g, req, groups, eval, max);
    OrderForOne(g, u);
    ConsistentAdequate(g, u);
    var s := SelectedMeans(g, u, walk, before);
    SelectKeys(u, Ranks(g), walk, Beginning(before), g.order, 0);
    forall id, e | id in g.order && Identifies(u, id, e) ensures e.refs !! Replaced(u, w) {
      IdentifiesIn(g, u, id, e);
    }
    IdentitiesKept(u, w, g.order, s.memory.cache);
  }

  lemma EchoRight(g: ResourceGraph, w: World, e: Expr, b: ID, x: Json)
    requires Built(g) && Consistent(g) && w.specs == WiredSpecs(g, SeenIn(g)) && Echoing(w, e, b, x)
    ensures RightReferences(g, w.eval)
  {
    hide Echoing, IsTopological, SeenIn, Consistent;
    SharingUnnoticedIff(g);
    forall id | id in g.nodes ensures RightNode(g, w.eval, g.nodes[id], id) {
      EchoRightNode(g, w, e, b, x, id, g.nodes[id]);
    }
    EchoRightNode(g, w, e, b, x, INSTANCE, InstanceOf(g));
  }

  lemma EchoRightNode(g: ResourceGraph, w: World, e: Expr, b: ID, x: Json, id: ID, n: GraphNode)
    requires Echoing(w, e, b, x) && id in w.specs && w.specs[id] == WiredSpec(g, map[], n)
    ensures RightNode(g, w.eval, n, id)
  {
    hide Echoing, ReadsOnly, Renders, SelectorFaultless;
    UnsharedSpec(g, n);
    EchoTexts(w, e, b, x, id);
    EchoSpec(w, e, b, x, id);
    assert forall f | f in n.forEach :: HasExpr(w.specs[id], f.expr);
    assert forall v | v in n.vars :: HasExpr(w.specs[id], v.expr);
  }

  /** Wrong for one oracle, after every walk. */
  lemma WrongIfReplaced(g: ResourceGraph, req: Request, groups: map<ID, seq<Json>>, max: int, walk: Walk, before: map<string, Composed>,
                        id: ID, e: Expr, b: ID)
    returns (eval: Oracle)
    requires Built(g) && Consistent(g) && Provides(g, req.external) && Groups(g, req, groups) && NoExternalCollections(g)
    requires Elems(g.order) <= g.nodes.Keys && ProperGraph(g, max) && Picks(walk)
    requires id in g.nodes && Identifies(FoundWorld(g, req, Silent, 0), id, e) && b in e.refs && b in ReplacedIn(g, req, groups)
    ensures Monotone(eval) && RightReferences(g, eval) && !KeptRight(g, req, groups, eval, max, walk, before)
  {
    hide IsTopological, Provides, Groups, WorldFor, FoundWorld, Ranks, Ranked, WellWired, Monotone, Sound, SelectFrom, RightReferences;
    hide Adequate, SelectorsFaultless, NothingManaged, Consistent, Built, NodesOf, IdentityText, WiredSpecs, SeenIn, Proper, HasExpr;
    hide NoExternalCollections, IdentityVars, ReplacedIn, Echo, TextsOf, FullContext, ContextValue, ProperGraph, Picks, Identifies;
    WorldsOf(g, req, groups, Silent, 0);
    var x := ContextValue(FoundWorld(g, req, Silent, 0), b);
    eval := Echo(e.original, b, x, TextsOf(Unobserved(g, 0)));
    WorldsOf(g, req, groups, eval, max);
    var u, w := FoundWorld(g, req, eval, max), WorldFor(g, req, groups, eval, max);
    SameIdentity(FoundWorld(g, req, Silent, 0), u, id, e);
    SameIdentity(u, w, id, e);
    SameTexts(u, w);
    IsEchoing(g, u, id, e, b, x);
    IsEchoing(g, w, id, e, b, x);
    EchoFaultless(u, e, b, x);
    EchoRight(g, u, e, b, x);
    OrderForOne(g, u);
    assert id in g.order by {
      BuiltKeys(g);
      assert id in Elems(g.order);
    }
    assert g.order[0..] == g.order;
    BeginningMeans(u);
    EchoKept(u, Ranks(g), walk, Beginning(before), g.order, 0, e, b, x, id);
    SameFound(g, req, eval, max, b);
    var cache := Selected(g, u, walk, before).memory.cache;
    var s := SelectedMeans(g, u, walk, before);
    EchoFresh(u, e, b, x, e.original);
    EchoFresh(w, e, b, x, e.original);
    NotSound(u, w, cache, e.original);
  }

  lemma NotSound(u: World, w: World, cache: Cache, text: string)
    requires WellWired(u) && WellWired(w) && Sound(u, cache) && Text(text) in cache
    requires u.eval(text, FullContext(u)) != w.eval(text, FullContext(w))
    ensures !Sound(w, cache)
  {
    hide FullContext, WellWired;
    assert TrueAt(u, Text(text), cache[Text(text)]);
    assert !TrueAt(w, Text(text), cache[Text(text)]);
  }

  lemma SameIdentity(u: World, w: World, id: ID, e: Expr)
    requires u.specs == w.specs
    ensures Identifies(u, id, e) == Identifies(w, id, e)
  {
  }

  lemma SameFound(g: ResourceGraph, req: Request, eval: Oracle, max: int, b: ID)
    requires Elems(g.order) <= g.nodes.Keys
    requires WellWired(FoundWorld(g, req, eval, max)) && WellWired(FoundWorld(g, req, Silent, 0))
    requires b in FoundWorld(g, req, eval, max).observed
    ensures b in FoundWorld(g, req, Silent, 0).observed
    ensures ContextValue(FoundWorld(g, req, eval, max), b) == ContextValue(FoundWorld(g, req, Silent, 0), b)
  {
    hide WiredSpecs, SeenIn, NotEmpty, WellWired;
  }

  lemma IsEchoing(g: ResourceGraph, w: World, id: ID, e: Expr, b: ID, x: Json)
    requires Elems(g.order) <= g.nodes.Keys && w.specs == WiredSpecs(g, SeenIn(g)) && WellWired(w) && ProperGraph(g, w.maxCollectionSize)
    requires Identifies(w, id, e) && b in e.refs && w.eval == Echo(e.original, b, x, TextsOf(Unobserved(g, 0)))
    ensures Echoing(w, e, b, x)
  {
    hide WiredSpecs, SeenIn, WellWired, Proper, Echo, IdentityVars, TextsOf;
    ProperWorld(g, w);
    SameTexts(w, Unobserved(g, 0));
    IdentityVarsAre(w.specs[id].vars);
    assert HasExpr(w.specs[id], e);
  }

  lemma SomeWrong(g: ResourceGraph, req: Request, groups: map<ID, seq<Json>>, max: int) returns (eval: Oracle)
    requires Built(g) && Consistent(g) && Provides(g, req.external) && Groups(g, req, groups) && NoExternalCollections(g)
    requires Elems(g.order) <= g.nodes.Keys && ProperGraph(g, max) && !IdentitiesUnreplaced(g, req, groups)
    ensures Monotone(eval) && RightReferences(g, eval) && Picks(AnyFirst) && !KeptRight(g, req, groups, eval, max, AnyFirst, map[])
  {
    hide IsTopological, Provides, Groups, Monotone, RightReferences, Consistent, Built, ProperGraph, KeptRight, ReplacedIn, NoExternalCollections;
    hide IdentityVars, FoundWorld, Picks, WiredSpecs, SeenIn, Identifies, WorldFor, Runnable, Replaced;
    var id, v :| id in g.nodes && g.nodes[id].kind.External? && v in IdentityVars(g.nodes[id].vars) && !v.iteration &&
                 !(v.expr.refs !! ReplacedIn(g, req, groups));
    var b :| b in v.expr.refs && b in ReplacedIn(g, req, groups);
    WorldsOf(g, req, groups, Silent, 0);
    IdentifiesIn(g, FoundWorld(g, req, Silent, 0), id, v.expr);
    AnyFirstPicks();
    eval := WrongIfReplaced(g, req, groups, max, AnyFirst, map[], id, v.expr, b);
  }

  /**
    Where no external node stands for many, the values that are kept from identifying external nodes are right for all
    oracles and walks if and only if no identity refers to a node that is replaced.
   */
  lemma KeptRightIff(g: ResourceGraph, req: Request, groups: map<ID, seq<Json>>, max: int)
    requires Built(g) && Consistent(g) && Provides(g, req.external) && Groups(g, req, groups) && NoExternalCollections(g)
    requires Elems(g.order) <= g.nodes.Keys && ProperGraph(g, max)
    ensures (forall eval, walk, before | Monotone(eval) && RightReferences(g, eval) && Picks(walk) ::
              KeptRight(g, req, groups, eval, max, walk, before)) <==>
            IdentitiesUnreplaced(g, req, groups)
  {
    hide IsTopological, Provides, Groups, Monotone, RightReferences, Consistent, Built, ProperGraph, KeptRight, ReplacedIn, NoExternalCollections;
    hide IdentityVars, FoundWorld, Picks, WiredSpecs, SeenIn;
    if IdentitiesUnreplaced(g, req, groups) {
      forall eval, walk, before | Monotone(eval) && RightReferences(g, eval) && Picks(walk)
        ensures KeptRight(g, req, groups, eval, max, walk, before)
      {
        KeptIfUnreplaced(g, req, groups, eval, max, walk, before);
      }
    } else {
      var eval := SomeWrong(g, req, groups, max);
    }
  }

  /** Then reconciliations that succeed emit the same resources, whatever else is replaced. */
  lemma UnreplacedConfluent(g: ResourceGraph, req: Request, eval: Oracle, max: int, dcds: map<string, Composed>,
                            a: map<ID, seq<Json>>, walkA: Walk, outA: map<string, Composed>,
                            b: map<ID, seq<Json>>, walkB: Walk, outB: map<string, Composed>)
    requires Built(g) && Consistent(g) && Provides(g, req.external) && NoExternalCollections(g) && Elems(g.order) <= g.nodes.Keys
    requires Monotone(eval) && RightReferences(g, eval) && Groups(g, req, a) && Groups(g, req, b)
    requires IdentitiesUnreplaced(g, req, a) && IdentitiesUnreplaced(g, req, b)
    requires forall e | UsedIn(g, e) :: Indifferent(eval, e, Mixed(g, req))
    requires RunsTo(g, req, a, eval, max, walkA, dcds, true, outA) && RunsTo(g, req, b, eval, max, walkB, dcds, true, outB)
    ensures outA == outB
  {
    hide IsTopological, Provides, Groups, Monotone, RightReferences, Consistent, Built, KeptRight, IdentitiesUnreplaced, NoExternalCollections;
    hide RunsTo, Reconciled, WorldFor, UsedIn, Indifferent, Mixed, Picks;
    PicksOf(g, req, a, eval, max, walkA, dcds, outA);
    PicksOf(g, req, b, eval, max, walkB, dcds, outB);
    KeptIfUnreplaced(g, req, a, eval, max, walkA, dcds);
    KeptIfUnreplaced(g, req, b, eval, max, walkB, dcds);
    RunsReconciled(g, req, a, eval, max, walkA, dcds, outA);
    RunsReconciled(g, req, b, eval, max, walkB, dcds, outB);
    RightConfluent(g, req, eval, max, dcds, a, outA, b, outB);
  }
}
