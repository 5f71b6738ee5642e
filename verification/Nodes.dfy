/** The nodes of a reconciliation and the expression states that they share: `kro/runtime`. */
module Nodes {
  import opened Sets
  import opened Trees
  import opened Graphs
  import opened Resolver
  import opened Objects
  import opened Expansion
  import opened World
  import opened Adequacy
  import opened Reconcile
  import opened Walks
  import opened Meanings
  import opened Identities

  class ExprState {
    const expr: Expr
    const iteration: bool
    const eval: Oracle
    ghost const key: Key
    var resolved: bool
    var resolvedValue: Json

    constructor (expr: Expr, iteration: bool, eval: Oracle, ghost key: Key)
      ensures this.expr == expr && this.iteration == iteration && this.eval == eval && this.key == key && !resolved
    {
      this.expr, this.iteration, this.eval, this.key := expr, iteration, eval, key;
      resolved, resolvedValue := false, Null;
    }

    ghost function Cache(): Option<Json>
      reads this
    {
      if resolved then Some(resolvedValue) else None
    }

    /** A cached value is the one that evaluation against everything observed gives. */
    ghost predicate Right(w: World)
      requires WellWired(w)
      reads this
    {
      eval == w.eval && (resolved ==> Fresh(w, expr) == Value(resolvedValue))
    }

    /** Whichever node and context filled the cache, a right value stays the one that everything observed gives. */
    method EvalCached(ctx: Ctx) returns (r: Eval)
      modifies this
      ensures (r, Cache()) == CachedEval(eval, expr, old(Cache()), ctx)
      ensures old(resolved) ==> r == Value(old(resolvedValue)) && resolved && resolvedValue == old(resolvedValue)
      ensures !old(resolved) ==> r == eval(expr.original, if expr.refs == {} then ctx else map x | x in ctx && x in expr.refs :: ctx[x])
      ensures !old(resolved) ==> resolved == r.Value? && (resolved ==> r == Value(resolvedValue))
      ensures forall w: World | WellWired(w) && Monotone(w.eval) && Within(ctx, FullContext(w)) && old(Right(w)) ::
                && Right(w) && (r.Value? ==> r == Fresh(w, expr))
                && (w.eval(expr.original, FilterContext(ctx, expr.refs)) == Fresh(w, expr) ==> r == Fresh(w, expr))
    {
      if resolved {
        return Value(resolvedValue);
      }
      r := eval(expr.original, FilterContext(ctx, expr.refs));
      if r.Value? {
        forall w: World | WellWired(w) && Within(ctx, FullContext(w)) ensures Within(FilterContext(ctx, expr.refs), FullContext(w)) {
          FilterWithin(ctx, FullContext(w), expr.refs);
        }
        resolved, resolvedValue := true, r.v;
      }
    }
  }

  /** All nodes by id, the instance included, and all expression states; ranks fall along dependencies. */
  datatype Net = Net(w: World, nodes: map<ID, Node>, states: set<ExprState>, rank: map<ID, nat>)

  /** No two states that are shared have the same key. */
  ghost predicate Keyed(states: set<ExprState>) {
    forall s, t | s in states && t in states && s.key == t.key && !s.key.Unshared? :: s == t
  }

  ghost predicate Unevaluated(states: set<ExprState>)
    reads states
  {
    forall s | s in states :: !s.resolved
  }

  /** All states evaluate with the oracle of the world. */
  ghost predicate SharedStates(net: Net) {
    Keyed(net.states) && forall s | s in net.states :: s.eval == net.w.eval
  }

  // ---- The values that the states hold. ----

  ghost function CacheOf(net: Net): Cache
    reads net.states
  {
    Summary(map s | s in net.states :: s.Cache())
  }

  ghost predicate Carries(vals: map<ExprState, Option<Json>>, s: ExprState, key: Key) {
    s in vals && vals[s].Some? && s.key == key && !key.Unshared?
  }

  ghost function Summary(vals: map<ExprState, Option<Json>>): Cache {
    map key | key in (set s: ExprState | s in vals && Carries(vals, s, s.key) :: s.key) :: ValueOf(vals, key)
  }

  ghost function ValueOf(vals: map<ExprState, Option<Json>>, key: Key): Json
    requires exists s | s in vals :: Carries(vals, s, key)
  {
    var s :| s in vals && Carries(vals, s, key);
    vals[s].value
  }

  lemma SummaryAt(vals: map<ExprState, Option<Json>>, s: ExprState)
    requires Keyed(vals.Keys) && s in vals && !s.key.Unshared?
    ensures vals[s] == if s.key in Summary(vals) then Some(Summary(vals)[s.key]) else None
  {
    if vals[s].Some? {
      assert Carries(vals, s, s.key);
    }
  }

  lemma SummaryUpdate(vals: map<ExprState, Option<Json>>, s: ExprState, v: Json)
    requires Keyed(vals.Keys) && s in vals && !s.key.Unshared?
    ensures Summary(vals[s := Some(v)]) == Summary(vals)[s.key := v]
  {
    var after := vals[s := Some(v)];
    assert Carries(after, s, s.key);
    forall key | key != s.key
      ensures key in Summary(after) <==> key in Summary(vals)
      ensures key in Summary(vals) ==> Summary(after)[key] == Summary(vals)[key]
    {
      forall t ensures Carries(after, t, key) <==> Carries(vals, t, key) {
      }
    }
  }

  lemma NothingCached(net: Net)
    requires Unevaluated(net.states)
    ensures CacheOf(net) == map[]
  {
  }

  /** All values that are held are right. */
  ghost predicate Right(net: Net)
    reads net.states
  {
    WellWired(net.w) && Monotone(net.w.eval) && Sound(net.w, CacheOf(net))
  }

  /** Evaluates a shared state; no other value is cached. */
  method EvalExprAny(expr: ExprState, ctx: Ctx, ghost net: Net) returns (r: Eval)
    requires SharedStates(net) && expr in net.states && !expr.key.Unshared?
    modifies net.states
    ensures (r, CacheOf(net)) == Look(net.w.eval, old(CacheOf(net)), expr.key, expr.expr, ctx)
  {
    hide WellWired, FilterContext, Summary, Keyed;
    ghost var before := map s | s in net.states :: s.Cache();
    assert before.Keys == net.states && CacheOf(net) == Summary(before);
    SummaryAt(before, expr);
    r := expr.EvalCached(ctx);
    ghost var after := map s | s in net.states :: s.Cache();
    assert after == before[expr := expr.Cache()];
    if expr.resolved {
      SummaryUpdate(before, expr, expr.resolvedValue);
    } else {
      assert after == before;
    }
  }

  /** Null counts as false; any other value that is not a boolean is an error. */
  method EvalBoolExpr(expr: ExprState, ctx: Ctx, ghost net: Net) returns (r: BoolEval)
    requires SharedStates(net) && expr in net.states && !expr.key.Unshared?
    modifies net.states
    ensures var (v, cache) := Look(net.w.eval, old(CacheOf(net)), expr.key, expr.expr, ctx);
            && CacheOf(net) == cache && r == Judge(v) && (r.IsTrue? <==> v == Value(Bool(true)))
            && (r.IsFalse? <==> v == Value(Bool(false)) || v == Value(Null)) && (r.BoolPending? <==> v.Pending?)
    ensures old(Right(net)) && expr.key == Text(expr.expr.original) && Within(ctx, FullContext(net.w)) ==>
              && Right(net) && (r.IsTrue? ==> Holds(net.w, expr.expr)) && (r.IsFalse? ==> Denies(net.w, expr.expr))
  {
    hide FullContext, WellWired, Monotone, Within, Look, CacheOf, SharedStates, Sound;
    if Right(net) && expr.key == Text(expr.expr.original) && Within(ctx, FullContext(net.w)) {
      JudgeMeans(net.w, CacheOf(net), expr.expr, ctx);
    }
    var val := EvalExprAny(expr, ctx, net);
    match val {
      case Pending => return BoolPending;
      case Fatal => return BoolFatal;
      case Value(Null) => return IsFalse;
      case Value(Bool(b)) => return if b then IsTrue else IsFalse;
      case Value(_) => return BoolFatal;
    }
  }

  function Exprs(states: seq<ExprState>): (r: seq<Expr>)
    ensures |r| == |states| && forall i | 0 <= i < |states| :: r[i] == states[i].expr
  {
    seq(|states|, i requires 0 <= i < |states| => states[i].expr)
  }

  class Node {
    const id: ID
    const kind: Kind
    const template: Json
    const templateVars: seq<string>
    const templateExprs: seq<ExprState>
    const includeWhenExprs: seq<ExprState>
    const readyWhenExprs: seq<ExprState>
    const forEachNames: seq<string>
    const forEachExprs: seq<ExprState>
    const maxCollectionSize: int
    var deps: map<ID, Node>
    var desired: Option<seq<Json>>
    var observed: Option<seq<Json>>

    constructor (id: ID, kind: Kind, template: Json, templateVars: seq<string>, templateExprs: seq<ExprState>,
                 includeWhenExprs: seq<ExprState>, readyWhenExprs: seq<ExprState>,
                 forEachNames: seq<string>, forEachExprs: seq<ExprState>, maxCollectionSize: int)
      ensures this.id == id && this.kind == kind && this.template == template
      ensures this.templateVars == templateVars && this.templateExprs == templateExprs
      ensures this.includeWhenExprs == includeWhenExprs && this.readyWhenExprs == readyWhenExprs
      ensures this.forEachNames == forEachNames && this.forEachExprs == forEachExprs
      ensures this.maxCollectionSize == maxCollectionSize
      ensures deps == map[] && desired == None && observed == None
    {
      this.id, this.kind, this.template := id, kind, template;
      this.templateVars, this.templateExprs := templateVars, templateExprs;
      this.includeWhenExprs, this.readyWhenExprs := includeWhenExprs, readyWhenExprs;
      this.forEachNames, this.forEachExprs, this.maxCollectionSize := forEachNames, forEachExprs, maxCollectionSize;
      deps, desired, observed := map[], None, None;
    }

    /** The lists of names and states have the same lengths. */
    ghost predicate Paired() {
      |templateVars| == |templateExprs| && |forEachNames| == |forEachExprs|
    }

    function Vars(): (r: seq<Variable>)
      requires |templateVars| == |templateExprs|
      ensures |r| == |templateVars|
    {
      seq(|templateVars|, i requires 0 <= i < |templateVars| =>
        Variable(templateVars[i], templateExprs[i].expr, templateExprs[i].iteration))
    }

    function Dims(): (r: seq<ForEach>)
      requires |forEachNames| == |forEachExprs|
      ensures |r| == |forEachNames|
    {
      seq(|forEachNames|, i requires 0 <= i < |forEachNames| => ForEach(forEachNames[i], forEachExprs[i].expr))
    }

    /** All expression states of the node. */
    ghost function States(): set<ExprState> {
      Elems(templateExprs) + Elems(includeWhenExprs) + Elems(readyWhenExprs) + Elems(forEachExprs)
    }

    /** The states have the keys under which their values are shared. */
    ghost predicate RightKeys() {
      && (forall i | 0 <= i < |templateExprs| ::
            templateExprs[i].key == if templateExprs[i].iteration then Unshared else Text(templateExprs[i].expr.original))
      && (forall i | 0 <= i < |includeWhenExprs| :: includeWhenExprs[i].key == Text(includeWhenExprs[i].expr.original))
      && (forall i | 0 <= i < |readyWhenExprs| :: readyWhenExprs[i].key == Text(readyWhenExprs[i].expr.original))
      && (forall i | 0 <= i < |forEachExprs| :: forEachExprs[i].key == Dim(id, i))
    }

    /** The node is wired as `net` describes it under its id. */
    ghost predicate Described(net: Net)
      reads this`deps
    {
      && id in net.w.specs && Paired() && RightKeys()
      && net.w.specs[id] == Spec(kind, deps.Keys, template, Vars(), Exprs(includeWhenExprs), Exprs(readyWhenExprs), Dims())
      && States() <= net.states && maxCollectionSize == net.w.maxCollectionSize
      && forall d | d in deps :: d in net.nodes && deps[d] == net.nodes[d]
    }

    /** The node is the one that `net` describes under its id. */
    ghost predicate Shows(net: Net)
      reads this`deps, this`observed
    {
      Described(net) && observed == (if id in net.w.observed then Some(net.w.observed[id]) else None)
    }

    /** The node is part of a network whose objects are as described, with these objects desired. */
    ghost predicate In(net: Net, resolved: Desired)
      reads this, net.nodes.Values
    {
      id in net.nodes && net.nodes[id] == this && Wired(net) && Holding(net, resolved)
    }

    /** The node is as the network describes it. */
    lemma Known(net: Net, resolved: Desired)
      requires In(net, resolved)
      ensures WellWired(net.w) && SharedStates(net) && Shows(net)
      ensures id in net.w.specs && net.w.specs[id].kind == kind
      ensures desired == if id in resolved then Some(resolved[id]) else None
      ensures RightKeys() && Ranked(net.w, net.rank)
    {
    }

    /** The node's dependencies are nodes of the network, with their kinds and what is observed of them. */
    lemma KnownDependencies(net: Net, resolved: Desired)
      requires In(net, resolved)
      ensures net.w.specs[id].deps == deps.Keys
      ensures forall d | d in deps :: d in net.w.specs && deps[d].In(net, resolved)
      ensures forall d | d in deps :: deps[d].id == d && deps[d].kind == net.w.specs[d].kind
      ensures forall d | d in deps ::
                deps[d].observed == (if d in net.w.observed then Some(net.w.observed[d]) else None)
    {
      assert Shows(net);
      forall d | d in deps ensures net.nodes[d].Shows(net) && net.nodes[d].id == d {
      }
    }

    /** The observed objects of the dependencies, narrowed to `only` unless that is empty. */
    method BuildContext(only: set<string>, ghost net: Net, ghost resolved: Desired) returns (ctx: Ctx)
      requires In(net, resolved)
      ensures ctx == NodeContext(net.w, id, only) && Within(ctx, FullContext(net.w))
      ensures forall d :: d in ctx <==> d in net.w.observed && d in deps && (only == {} || d in only)
      ensures forall d | d in ctx && IsMany(deps[d].kind) :: ctx[d] == Arr(net.w.observed[d])
      ensures forall d | d in ctx && !IsMany(deps[d].kind) && d != "schema" :: net.w.observed[d] != [] && ctx[d] == net.w.observed[d][0]
      ensures "schema" in ctx ==> net.w.observed["schema"] != [] && forall p | p != [] ::
                Get(ctx["schema"], p) == if p[0] == Field("status") then None else Get(net.w.observed["schema"][0], p)
    {
      hide In, Within, Shows, FullContext, Get;
      Known(net, resolved);
      KnownDependencies(net, resolved);
      NodeContextWithin(net.w, id, only);
      ctx := map[];
      var todo := deps.Keys;
      while todo != {}
        invariant todo <= deps.Keys
        invariant forall d :: d in ctx <==> d in deps && d !in todo && d in net.w.observed && (only == {} || d in only)
        invariant forall d | d in ctx :: ctx[d] == ContextValue(net.w, d)
        decreases todo
      {
        var depID :| depID in todo;
        todo := todo - {depID};
        var dep := deps[depID];
        if dep.observed.Some? && (only == {} || depID in only) {
          if IsMany(dep.kind) {
            ctx := ctx[depID := Arr(dep.observed.value)];
          } else {
            var obj := dep.observed.value[0];
            ctx := ctx[depID := if depID == INSTANCE then WithoutStatus(obj) else obj];
          }
        }
      }
      assert ctx == NodeContext(net.w, id, only);
      forall p | p != [] && INSTANCE in ctx
        ensures Get(ctx[INSTANCE], p) == if p[0] == Field("status") then None else Get(net.w.observed[INSTANCE][0], p)
      {
        WithoutStatusReads(net.w.observed[INSTANCE][0], p);
      }
    }

    // ---- Readiness. ----

    /** All readyWhen expressions are true on everything that is observed. */
    ghost predicate UpOnAll(w: World)
      requires WellWired(w)
    {
      forall s | s in readyWhenExprs :: w.eval(s.expr.original, FullContext(w)) == Value(Bool(true))
    }

    lemma ReadySays(net: Net, resolved: Desired, r: Readiness)
      requires In(net, resolved) && !IsMany(kind) && WellWired(net.w) && id in net.w.specs && ReadyMeans(net.w, resolved, id, r)
      ensures var up := id in net.w.observed && net.w.observed[id] != [] && UpOnAll(net.w);
              (r.IsReady? ==> up) && (up && Adequate(net.w) ==> r.IsReady?)
    {
      hide In, FullContext, WellWired, Adequate;
      ReadyWhenKnown(net, resolved);
      var es := Exprs(readyWhenExprs);
      forall s | s in readyWhenExprs ensures s.expr in es {
        var i :| 0 <= i < |readyWhenExprs| && readyWhenExprs[i] == s;
        assert es[i] == s.expr;
      }
      forall e | e in es ensures exists s :: s in readyWhenExprs && s.expr == e {
        var i :| 0 <= i < |es| && es[i] == e;
        assert readyWhenExprs[i] in readyWhenExprs;
      }
    }

    method CheckSingleResourceReadiness(ghost net: Net, ghost resolved: Desired) returns (r: Readiness)
      requires In(net, resolved) && !IsMany(kind) && !kind.Instance?
      modifies net.states
      ensures WellWired(net.w) && id in net.w.specs && (r, CacheOf(net)) == ObservedNow(net.w, old(CacheOf(net)), resolved, id)
      ensures old(Right(net)) ==> Right(net) && ReadyMeans(net.w, resolved, id, r)
      ensures old(Right(net)) ==>
                var up := id in net.w.observed && net.w.observed[id] != [] && UpOnAll(net.w);
                (r.IsReady? ==> up) && (up && Adequate(net.w) ==> r.IsReady?)
    {
      hide FullContext, In, WellWired, CacheOf, Look, RightKeys, Sound, ReadyMeans, Monotone, Adequate;
      Known(net, resolved);
      ReadyWhenKnown(net, resolved);
      if Right(net) {
        ObservedMeans(net.w, CacheOf(net), resolved, id);
        ReadySays(net, resolved, ObservedNow(net.w, CacheOf(net), resolved, id).0);
      }
      if observed == None || observed.value == [] {
        return Waiting;
      }
      var ctx: Ctx := map[id := observed.value[0]];
      for i := 0 to |readyWhenExprs|
        invariant SingleFrom(net.w, CacheOf(net), id, i) == ObservedNow(net.w, old(CacheOf(net)), resolved, id)
      {
        var expr := readyWhenExprs[i];
        assert expr in States();
        var result := EvalBoolExpr(expr, ctx, net);
        match result {
          case BoolPending => return Waiting;
          case BoolFatal => return NotCheckable(false);
          case IsFalse => return Waiting;
          case IsTrue =>
        }
      }
      return IsReady;
    }

    /** readyWhen of a collection is evaluated for each item by itself and never cached. */
    method CheckItems(items: seq<Json>) returns (r: Readiness)
      ensures forall eval | (forall s | s in readyWhenExprs :: s.eval == eval) ::
                r == ItemsReady(eval, Exprs(readyWhenExprs), items, 0, 0)
    {
      ghost var es := Exprs(readyWhenExprs);
      for i := 0 to |items|
        invariant forall eval | (forall s | s in readyWhenExprs :: s.eval == eval) ::
          ItemsReady(eval, es, items, i, 0) == ItemsReady(eval, es, items, 0, 0)
      {
        var ctx: Ctx := map[EACH := items[i]];
        for j := 0 to |readyWhenExprs|
          invariant forall eval | (forall s | s in readyWhenExprs :: s.eval == eval) ::
            ItemsReady(eval, es, items, i, j) == ItemsReady(eval, es, items, 0, 0)
        {
          assert readyWhenExprs[j] in readyWhenExprs;
          var val := readyWhenExprs[j].eval(readyWhenExprs[j].expr.original, ctx);
          if val != Value(Bool(true)) {
            return if val.Pending? || val == Value(Bool(false)) then Waiting else NotCheckable(false);
          }
        }
      }
      return IsReady;
    }

    lemma CollectionSays(net: Net, resolved: Desired)
      requires In(net, resolved) && IsMany(kind)
      ensures WellWired(net.w) && id in net.w.specs
      ensures var items := if id in net.w.observed then net.w.observed[id] else [];
              ObservedReady(net.w, resolved, id) <==>
                if kind.ExternalCollection? then UpOneByOne(net.w.eval, items)
                else id in resolved && (resolved[id] == [] || (|resolved[id]| <= |items| && UpOneByOne(net.w.eval, items)))
    {
      hide In, WellWired, AllItemsReady, UpOneByOne;
      ReadyWhenKnown(net, resolved);
      AllItemsUp(net, resolved);
    }

    /** Each item by itself meets all readyWhen expressions. */
    ghost predicate UpOneByOne(eval: Oracle, items: seq<Json>) {
      forall o, s | o in items && s in readyWhenExprs :: eval(s.expr.original, map["each" := o]) == Value(Bool(true))
    }

    lemma AllItemsUp(net: Net, resolved: Desired)
      requires In(net, resolved)
      ensures id in net.w.specs && (AllItemsReady(net.w, id) <==> UpOneByOne(net.w.eval, Observed(net.w, id)))
    {
      hide In;
      ReadyWhenKnown(net, resolved);
      forall s | s in readyWhenExprs ensures s.expr in Exprs(readyWhenExprs) {
        var i :| 0 <= i < |readyWhenExprs| && readyWhenExprs[i] == s;
        assert Exprs(readyWhenExprs)[i] == s.expr;
      }
    }

    method CheckCollectionReadiness(ghost net: Net, ghost resolved: Desired) returns (r: Readiness)
      requires In(net, resolved) && IsMany(kind)
      ensures WellWired(net.w) && id in net.w.specs && r == ManyNow(net.w, resolved, id)
      ensures r.IsReady? <==> ObservedReady(net.w, resolved, id)
      ensures var items := if id in net.w.observed then net.w.observed[id] else [];
              r.IsReady? <==>
                if kind.ExternalCollection? then UpOneByOne(net.w.eval, items)
                else id in resolved && (resolved[id] == [] || (|resolved[id]| <= |items| && UpOneByOne(net.w.eval, items)))
    {
      hide In, WellWired, ItemsReady, ObservedReady, UpOneByOne;
      Known(net, resolved);
      ReadyWhenKnown(net, resolved);
      ManyMeans(net.w, resolved, id);
      CollectionSays(net, resolved);
      var items := if observed.Some? then observed.value else [];
      if kind.ExternalCollection? {
        if readyWhenExprs == [] || items == [] {
          return IsReady;
        }
      } else {
        if desired == None {
          return Waiting;
        }
        if desired.value == [] {
          return IsReady;
        }
        if |items| < |desired.value| {
          return Waiting;
        }
        if readyWhenExprs == [] {
          return IsReady;
        }
      }
      r := CheckItems(items);
    }

    /** Readiness on the observed state, whatever the node's conditions say. */
    method CheckObservedReadiness(ghost net: Net, ghost resolved: Desired) returns (r: Readiness)
      requires In(net, resolved) && !kind.Instance?
      modifies net.states
      ensures WellWired(net.w) && id in net.w.specs && (r, CacheOf(net)) == ObservedNow(net.w, old(CacheOf(net)), resolved, id)
    {
      hide In, WellWired, CacheOf, ManyNow, SingleFrom, ReadyMeans, ObservedReady, Right;
      ReadyWhenKnown(net, resolved);
      if IsMany(kind) {
        r := CheckCollectionReadiness(net, resolved);
      } else {
        r := CheckSingleResourceReadiness(net, resolved);
      }
    }

    /** The node's readyWhen expressions are those of its states. */
    lemma ReadyWhenKnown(net: Net, resolved: Desired)
      requires In(net, resolved)
      ensures WellWired(net.w) && id in net.w.specs && net.w.specs[id].kind == kind && (kind.Instance? <==> id == INSTANCE)
      ensures net.w.specs[id].readyWhen == Exprs(readyWhenExprs)
      ensures Observed(net.w, id) == if observed.Some? then observed.value else []
      ensures desired == if id in resolved then Some(resolved[id]) else None
      ensures forall s | s in readyWhenExprs :: s in net.states && s.eval == net.w.eval && s.key == Text(s.expr.original)
    {
      Known(net, resolved);
      forall s | s in readyWhenExprs ensures s in States() && s.key == Text(s.expr.original) {
        var i :| 0 <= i < |readyWhenExprs| && readyWhenExprs[i] == s;
      }
    }

    // ---- Ignoring. ----

    /** The node's own conditions are those of its states. */
    lemma ConditionsAre(net: Net, resolved: Desired)
      requires In(net, resolved) && !kind.Instance?
      ensures WellWired(net.w) && id in net.w.specs && id != INSTANCE && !net.w.specs[id].kind.Instance?
      ensures net.w.specs[id].includeWhen == Exprs(includeWhenExprs) && net.w.specs[id].deps == deps.Keys <= net.w.specs.Keys
      ensures SharedStates(net)
      ensures forall i | 0 <= i < |includeWhenExprs| ::
                includeWhenExprs[i] in net.states && includeWhenExprs[i].key == Text(includeWhenExprs[i].expr.original)
    {
      hide In;
      Known(net, resolved);
      assert forall i | 0 <= i < |includeWhenExprs| :: includeWhenExprs[i] in States();
    }

    /** The identifiers that the conditions refer to. */
    function Needed(): set<string> {
      NeededBy(Exprs(includeWhenExprs))
    }

    method CheckConditionRefs(walk: Walk, tick: nat, ghost net: Net, ghost resolved: Desired) returns (r: Ignoring, next: nat)
      requires In(net, resolved) && !kind.Instance? && Picks(walk)
      modifies net.states
      ensures WellWired(net.w) && id in net.w.specs
      ensures (r, Memory(CacheOf(net), next)) ==
              RefsFrom(net.w, walk, Memory(old(CacheOf(net)), tick), resolved, id, Needed() - {INSTANCE})
    {
      hide In, WellWired, Needed, CacheOf, ObservedNow, RefsFrom, RightKeys;
      KnownDependencies(net, resolved);
      ConditionsAre(net, resolved);
      next := tick;
      var resourceRefs := Needed() - {INSTANCE};
      while resourceRefs != {}
        invariant resourceRefs <= Needed() - {INSTANCE}
        invariant RefsFrom(net.w, walk, Memory(CacheOf(net), next), resolved, id, resourceRefs) ==
                  RefsFrom(net.w, walk, Memory(old(CacheOf(net)), tick), resolved, id, Needed() - {INSTANCE})
        decreases resourceRefs
      {
        RefsStep(net.w, walk, Memory(CacheOf(net), next), resolved, id, resourceRefs);
        var depID := walk(next, resourceRefs);
        next := next + 1;
        resourceRefs := resourceRefs - {depID};
        if depID !in deps {
          return Undecided(false), next;
        }
        NotInstance(net, resolved, depID);
        var ready := deps[depID].CheckObservedReadiness(net, resolved);
        match ready {
          case Waiting => return Undecided(true), next;
          case NotCheckable(pending) => return Undecided(pending), next;
          case IsReady =>
        }
      }
      RefsStep(net.w, walk, Memory(CacheOf(net), next), resolved, id, {});
      return NotIgnored, next;
    }

    /** What a decision says of the expressions themselves. */
    lemma ConditionsSay(net: Net, resolved: Desired, r: Ignoring)
      requires In(net, resolved) && !kind.Instance? && WellWired(net.w) && id in net.w.specs && DecidedMeans(net.w, resolved, id, r)
      ensures r.NotIgnored? ==> forall s | s in includeWhenExprs :: net.w.eval(s.expr.original, FullContext(net.w)) == Value(Bool(true))
      ensures r.NotIgnored? ==> forall s, d | s in includeWhenExprs && d in s.expr.refs && d != "schema" ::
                d in deps && d in net.w.specs && ObservedReady(net.w, resolved, d)
      ensures r.Ignored? ==> exists s :: s in includeWhenExprs && net.w.eval(s.expr.original, FullContext(net.w)) in {Value(Bool(false)), Value(Null)}
    {
      hide In, FullContext, WellWired, Adequate, ObservedReady, Stuck;
      ConditionsAre(net, resolved);
      var es := Exprs(includeWhenExprs);
      forall s | s in includeWhenExprs ensures s.expr in es {
        var i :| 0 <= i < |includeWhenExprs| && includeWhenExprs[i] == s;
        assert es[i] == s.expr;
      }
      forall e | e in es ensures exists s :: s in includeWhenExprs && s.expr == e {
        var i :| 0 <= i < |es| && es[i] == e;
        assert includeWhenExprs[i] in includeWhenExprs;
      }
    }

    /** The node's own conditions, once the nodes that they look at are ready. */
    method CheckConditions(walk: Walk, tick: nat, ghost net: Net, ghost resolved: Desired) returns (r: Ignoring, next: nat)
      requires In(net, resolved) && !kind.Instance? && Picks(walk)
      modifies net.states
      ensures WellWired(net.w) && id in net.w.specs
      ensures (r, Memory(CacheOf(net), next)) == ConditionsNow(net.w, walk, Memory(old(CacheOf(net)), tick), resolved, id)
      ensures old(Right(net)) ==> Right(net) && DecidedMeans(net.w, resolved, id, r)
      ensures old(Right(net)) ==>
                && (r.NotIgnored? ==> forall s | s in includeWhenExprs :: net.w.eval(s.expr.original, FullContext(net.w)) == Value(Bool(true)))
                && (r.NotIgnored? ==> forall s, d | s in includeWhenExprs && d in s.expr.refs && d != "schema" ::
                      d in deps && d in net.w.specs && ObservedReady(net.w, resolved, d))
                && (r.Ignored? ==> exists s :: s in includeWhenExprs && net.w.eval(s.expr.original, FullContext(net.w)) in {Value(Bool(false)), Value(Null)})
    {
      hide In, WellWired, NodeContext, FullContext, Within, CacheOf, Look, RefsFrom, RightKeys, NeededBy, Sound, DecidedMeans, Monotone, SharedStates;
      ConditionsAre(net, resolved);
      if Right(net) {
        ConditionsNowMeans(net.w, walk, Memory(CacheOf(net), tick), resolved, id);
        ConditionsSay(net, resolved, ConditionsNow(net.w, walk, Memory(CacheOf(net), tick), resolved, id).0);
      }
      var refs;
      refs, next := CheckConditionRefs(walk, tick, net, resolved);
      if !refs.NotIgnored? {
        return refs, next;
      }
      ghost var cache := CacheOf(net);
      var ctx := BuildContext(Needed(), net, resolved);
      for i := 0 to |includeWhenExprs|
        invariant ConditionsFrom(net.w, CacheOf(net), id, i) == ConditionsFrom(net.w, cache, id, 0)
      {
        var expr := includeWhenExprs[i];
        var val := EvalBoolExpr(expr, ctx, net);
        match val {
          case BoolPending => return Undecided(expr.expr.refs - {INSTANCE} != {}), next;
          case BoolFatal => return Undecided(false), next;
          case IsFalse => return Ignored, next;
          case IsTrue =>
        }
      }
      return NotIgnored, next;
    }

    lemma NotInstance(net: Net, resolved: Desired, d: ID)
      requires In(net, resolved) && d in deps && d != INSTANCE
      ensures !deps[d].kind.Instance? && deps[d].id == d && deps[d].In(net, resolved)
    {
      KnownDependencies(net, resolved);
    }

    lemma LowerRank(net: Net, resolved: Desired)
      requires In(net, resolved) && !kind.Instance?
      ensures id in net.rank && forall d | d in deps :: d in net.rank && net.rank[d] < net.rank[id]
    {
      Known(net, resolved);
    }

    lemma RankedKnown(net: Net, resolved: Desired)
      requires In(net, resolved)
      ensures WellWired(net.w) && Ranked(net.w, net.rank) && SharedStates(net)
      ensures id in net.w.specs && net.w.specs[id].kind == kind && (kind.Instance? <==> id == INSTANCE)
    {
      Known(net, resolved);
    }

    /** Ignoring is contagious along dependencies, but the instance is never ignored. */
    method IsIgnored(walk: Walk, tick: nat, ghost net: Net, ghost resolved: Desired) returns (r: Ignoring, next: nat)
      requires In(net, resolved) && Picks(walk)
      modifies net.states
      ensures WellWired(net.w) && Ranked(net.w, net.rank) && id in net.w.specs
      ensures (r, Memory(CacheOf(net), next)) ==
              IgnoredNow(net.w, net.rank, walk, Memory(old(CacheOf(net)), tick), resolved, id)
      ensures old(Right(net)) ==> Right(net) && IgnoringMeans(net.w, resolved, id, r)
      ensures old(Right(net)) ==>
                && (r.NotIgnored? ==> forall m, e | m in net.w.specs && Reaches(IgnoreGraph(net.w), id, m) && m != "schema" && e in net.w.specs[m].includeWhen ::
                      net.w.eval(e.original, FullContext(net.w)) == Value(Bool(true)))
                && (r.Ignored? ==> exists m, e | m in net.w.specs && Reaches(IgnoreGraph(net.w), id, m) && m != "schema" && e in net.w.specs[m].includeWhen ::
                      net.w.eval(e.original, FullContext(net.w)) in {Value(Bool(false)), Value(Null)})
      decreases if id in net.rank then net.rank[id] else 0
    {
      hide In, WellWired, CacheOf, ConditionsNow, Ranked, IgnoredFrom, Picks, Sound, IgnoringMeans, DecidedMeans, Monotone, SharedStates;
      RankedKnown(net, resolved);
      if Right(net) {
        IgnoredMeans(net.w, net.rank, walk, Memory(CacheOf(net), tick), resolved, id);
        IgnoringSays(net.w, resolved, id, IgnoredNow(net.w, net.rank, walk, Memory(CacheOf(net), tick), resolved, id).0);
      }
      next := tick;
      if kind.Instance? {
        return NotIgnored, next;
      }
      KnownDependencies(net, resolved);
      LowerRank(net, resolved);
      ghost var m := Memory(CacheOf(net), tick);
      var todo := deps.Keys;
      while todo != {}
        invariant todo <= deps.Keys
        invariant IgnoredFrom(net.w, net.rank, walk, Memory(CacheOf(net), next), resolved, id, todo) ==
                  IgnoredFrom(net.w, net.rank, walk, m, resolved, id, deps.Keys)
        decreases todo
      {
        IgnoredStep(net.w, net.rank, walk, Memory(CacheOf(net), next), resolved, id, todo);
        var depID := walk(next, todo);
        next := next + 1;
        todo := todo - {depID};
        var ignored;
        ignored, next := deps[depID].IsIgnored(walk, next, net, resolved);
        if !ignored.NotIgnored? {
          return ignored, next;
        }
      }
      IgnoredStep(net.w, net.rank, walk, Memory(CacheOf(net), next), resolved, id, {});
      r, next := CheckConditions(walk, next, net, resolved);
    }

    /** Ignored nodes do not block their dependents. */
    method CheckReadiness(walk: Walk, tick: nat, ghost net: Net, ghost resolved: Desired) returns (r: Readiness, next: nat)
      requires In(net, resolved) && !kind.Instance? && Picks(walk)
      modifies net.states
      ensures WellWired(net.w) && Ranked(net.w, net.rank) && id in net.w.specs
      ensures (r, Memory(CacheOf(net), next)) ==
              ReadyNow(net.w, net.rank, walk, Memory(old(CacheOf(net)), tick), resolved, id)
      ensures old(Right(net)) ==> Right(net) && CheckedMeans(net.w, resolved, id, r)
    {
      hide In, WellWired, CacheOf, IgnoredNow, ObservedNow, Ranked, Sound, IgnoringMeans, CheckedMeans, Monotone, SharedStates;
      RankedKnown(net, resolved);
      if Right(net) {
        ReadyNowMeans(net.w, net.rank, walk, Memory(CacheOf(net), tick), resolved, id);
      }
      var ignored;
      ignored, next := IsIgnored(walk, tick, net, resolved);
      match ignored {
        case Undecided(pending) => return NotCheckable(pending), next;
        case Ignored => return IsReady, next;
        case NotIgnored => r := CheckObservedReadiness(net, resolved);
      }
    }

    // ---- Resolving. ----

    /** What the node's fields and dimensions look like in the network. */
    lemma TemplateKnown(net: Net, resolved: Desired)
      requires In(net, resolved)
      ensures WellWired(net.w) && SharedStates(net) && id in net.w.specs && Paired()
      ensures net.w.specs[id].vars == Vars() && net.w.specs[id].forEach == Dims() && net.w.specs[id].template == template
      ensures net.w.specs[id].kind == kind && net.w.maxCollectionSize == maxCollectionSize
      ensures forall s | s in templateExprs || s in forEachExprs :: s in net.states
      ensures RightKeys()
    {
      Known(net, resolved);
    }

    /** Some field of the first `n` has this expression. */
    predicate HasOriginal(n: nat, iteration: bool, original: string)
      requires n <= |templateExprs|
    {
      exists j | 0 <= j < n :: templateExprs[j].iteration == iteration && templateExprs[j].expr.original == original
    }

    lemma OriginalsKnown(iteration: bool)
      requires Paired()
      ensures forall o :: o in Originals(Vars(), iteration) <==> HasOriginal(|templateExprs|, iteration, o)
    {
      var vs := Vars();
      forall o ensures o in Originals(vs, iteration) <==> HasOriginal(|templateExprs|, iteration, o) {
        if o in Originals(vs, iteration) {
          var v :| v in vs && v.iteration == iteration && v.expr.original == o;
          var j :| 0 <= j < |vs| && vs[j] == v;
          assert templateExprs[j].expr.original == o;
        }
        if HasOriginal(|templateExprs|, iteration, o) {
          var j :| 0 <= j < |templateExprs| && templateExprs[j].iteration == iteration && templateExprs[j].expr.original == o;
          assert vs[j] in vs;
        }
      }
    }

    /** The values of the expressions in `exprs`, in the order of the fields; the first one that has none ends the evaluation. */
    method EvaluateExprs(exprs: set<string>, ghost net: Net, ghost resolved: Desired) returns (r: Attempt<Data>)
      requires In(net, resolved)
      modifies net.states
      ensures WellWired(net.w) && id in net.w.specs && Paired() && net.w.specs[id].vars == Vars()
      ensures (r, CacheOf(net)) == BaseFrom(net.w, old(CacheOf(net)), id, exprs, 0, map[])
      ensures old(Right(net)) && exprs == Originals(Vars(), false) ==> Right(net) && FieldsMean(net.w, id, r)
    {
      hide In, WellWired, NodeContext, FullContext, Within, CacheOf, Look, FieldRefs, Sound, FieldsMean, Originals, Monotone, SharedStates;
      TemplateKnown(net, resolved);
      if Right(net) {
        BaseDataMeans(net.w, CacheOf(net), id);
      }
      var values: Data := map[];
      var ctx := BuildContext(FieldRefs(Vars(), exprs), net, resolved);
      for i := 0 to |templateExprs|
        invariant BaseFrom(net.w, CacheOf(net), id, exprs, i, values) == BaseFrom(net.w, old(CacheOf(net)), id, exprs, 0, map[])
      {
        var expr := templateExprs[i];
        assert Vars()[i].expr == expr.expr && Vars()[i].iteration == expr.iteration;
        if !expr.iteration && expr.expr.original in exprs {
          assert expr in templateExprs;
          var val := EvalExprAny(expr, ctx, net);
          match val {
            case Pending => return NotYet;
            case Fatal => return Failure;
            case Value(v) => values := values[expr.expr.original := v];
          }
        }
      }
      return Done(values);
    }

    /** The states of the fields with forEach variables, by their text. */
    method IterationStates() returns (states: map<string, ExprState>)
      requires Paired()
      ensures states.Keys == Originals(Vars(), true)
      ensures forall o | o in states :: states[o] in templateExprs && states[o].iteration && states[o].expr.original == o
    {
      OriginalsKnown(true);
      states := map[];
      for i := 0 to |templateExprs|
        invariant forall o :: o in states <==> HasOriginal(i, true, o)
        invariant forall o | o in states :: states[o] in templateExprs && states[o].iteration && states[o].expr.original == o
      {
        if templateExprs[i].iteration {
          states := states[templateExprs[i].expr.original := templateExprs[i]];
        }
      }
    }

    /** The values of the fields with forEach variables, evaluated for one item in any order and never cached. */
    method EvaluateItem(walk: Walk, tick: nat, states: map<string, ExprState>, baseCtx: Ctx, binding: Binding,
                        ghost net: Net, ghost resolved: Desired)
      returns (r: Attempt<Data>, next: nat)
      requires In(net, resolved) && WellWired(net.w) && id in net.w.specs && Picks(walk) && Paired()
      requires baseCtx == NodeContext(net.w, id, IterationRefs(net.w.specs[id].vars))
      requires states.Keys == Originals(Vars(), true)
      requires forall o | o in states :: states[o] in templateExprs && states[o].expr.original == o
      ensures (r, next) == ItemFrom(net.w, walk, tick, IterationContext(net.w, id, binding), Originals(Vars(), true), map[])
    {
      hide In, WellWired, NodeContext, Originals, IterationRefs;
      TemplateKnown(net, resolved);
      var ctx := baseCtx + binding;
      var values: Data := map[];
      next := tick;
      var todo := states.Keys;
      while todo != {}
        invariant todo <= states.Keys
        invariant ItemFrom(net.w, walk, next, ctx, todo, values) == ItemFrom(net.w, walk, tick, ctx, states.Keys, map[])
        decreases todo
      {
        var o := walk(next, todo);
        next := next + 1;
        todo := todo - {o};
        var val := states[o].eval(o, ctx);
        match val {
          case Pending => return NotYet, next;
          case Fatal => return Failure, next;
          case Value(v) => values := values[o := v];
        }
      }
      return Done(values), next;
    }

    /** The combinations of forEach values. */
    method EvaluateForEach(ghost net: Net, ghost resolved: Desired) returns (r: Attempt<seq<Binding>>)
      requires In(net, resolved)
      modifies net.states
      ensures WellWired(net.w) && id in net.w.specs && (r, CacheOf(net)) == ForEachNow(net.w, old(CacheOf(net)), id)
      ensures old(Right(net)) ==> Right(net) && CombinationsMean(net.w, id, r)
    {
      hide CacheOf, Look, In, WellWired, NodeContext, FullContext, Within, Product, NoneEmpty, Combination, DimensionRefs, Sound;
      hide CombinationsMean, Monotone, SharedStates;
      TemplateKnown(net, resolved);
      if Right(net) {
        BindingsMean(net.w, CacheOf(net), id);
      }
      if forEachNames == [] {
        assert Dims() == [];
        return Done([]);
      }
      var ctx := BuildContext(DimensionRefs(Dims()), net, resolved);
      var dims: seq<Dimension> := [];
      NoDimensions();
      for i := 0 to |forEachNames|
        invariant |dims| == i && NoneEmpty(Lengths(dims))
        invariant ForEachFrom(net.w, CacheOf(net), id, i, dims) == ForEachFrom(net.w, old(CacheOf(net)), id, 0, [])
      {
        assert forEachExprs[i] in forEachExprs;
        var val := EvalExprAny(forEachExprs[i], ctx, net);
        match val {
          case Pending => return NotYet;
          case Fatal => return Failure;
          case Value(Arr(values)) =>
            if values == [] {
              return Done([]);
            }
            OneDimensionMore(dims, Dimension(forEachNames[i], values));
            dims := dims + [Dimension(forEachNames[i], values)];
          case Value(_) => return Failure;
        }
      }
      r := Multiply(dims);
    }

    /** All combinations of the dimensions, unless there are too many. */
    method Multiply(dims: seq<Dimension>) returns (r: Attempt<seq<Binding>>)
      requires dims != [] && NoneEmpty(Lengths(dims))
      ensures r == if Product(Lengths(dims)) > maxCollectionSize then Failure
                   else Done(seq(Product(Lengths(dims)), k requires 0 <= k < Product(Lengths(dims)) => Combination(dims, k)))
    {
      hide Combination, Product, NoneEmpty, SizeCheck;
      SizeCheckIff(Lengths(dims), 1, maxCollectionSize);
      var product := CartesianProduct(dims, maxCollectionSize);
      match product {
        case Items(items) =>
          assert items == seq(Product(Lengths(dims)), k requires 0 <= k < Product(Lengths(dims)) => Combination(dims, k));
          return Done(items);
        case _ => return Failure;
      }
    }

    /** A copy of the template with the values filled in; an error if one of the fields could not be resolved. */
    method Render(vars: seq<Variable>, values: Data) returns (r: Option<Json>)
      ensures r == Rendered(template, Descriptors(vars), values)
    {
      hide AppliedAll, Clean;
      var res := new TemplateResolver(template, values);
      var fields := Descriptors(vars);
      var results := res.Resolve(fields);
      if forall i | 0 <= i < |results| :: results[i].Resolved? {
        return Some(res.resource);
      }
      return None;
    }

    /** The template with the fields `vars` filled in. */
    method HardResolveSingleResource(vars: seq<Variable>, ghost net: Net, ghost resolved: Desired) returns (r: Attempt<Json>)
      requires In(net, resolved)
      modifies net.states
      ensures WellWired(net.w) && id in net.w.specs && (r, CacheOf(net)) == SingleNow(net.w, old(CacheOf(net)), id, vars)
    {
      hide In, WellWired, Rendered, CacheOf, BaseFrom, RightKeys, Right, FieldsMean, Originals, SharedStates;
      TemplateKnown(net, resolved);
      var values := EvaluateExprs(Originals(vars, false), net, resolved);
      match values {
        case NotYet => return NotYet;
        case Failure => return Failure;
        case Done(data) =>
          var obj := Render(vars, data);
          return if obj.Some? then Done(obj.value) else Failure;
      }
    }

    /** One object for every combination, each with its index, and no two with the same identity. */
    method HardResolveCollection(walk: Walk, tick: nat, ghost net: Net, ghost resolved: Desired)
      returns (r: Attempt<seq<Json>>, next: nat)
      requires In(net, resolved) && kind.Collection? && Picks(walk)
      modifies net.states
      ensures WellWired(net.w) && id in net.w.specs
      ensures (r, Memory(CacheOf(net), next)) == ObjectsNow(net.w, walk, Memory(old(CacheOf(net)), tick), id)
      ensures old(Right(net)) ==> Right(net) && ObjectsAre(net.w, id, r)
    {
      hide In, WellWired, CacheOf, BaseFrom, ForEachNow, ItemsFrom, RightKeys, Sound, ObjectsAre, FieldsMean, CombinationsMean, Originals;
      hide Monotone, SharedStates;
      TemplateKnown(net, resolved);
      if Right(net) {
        ObjectsMean(net.w, walk, Memory(CacheOf(net), tick), id);
      }
      next := tick;
      var values := EvaluateExprs(Originals(Vars(), false), net, resolved);
      match values {
        case NotYet => return NotYet, next;
        case Failure => return Failure, next;
        case Done(base) =>
          var items := EvaluateForEach(net, resolved);
          match items {
            case NotYet => return NotYet, next;
            case Failure => return Failure, next;
            case Done(bindings) => r, next := ExpandItems(walk, tick, base, bindings, net, resolved);
          }
      }
    }

    method ExpandItems(walk: Walk, tick: nat, base: Data, bindings: seq<Binding>, ghost net: Net, ghost resolved: Desired)
      returns (r: Attempt<seq<Json>>, next: nat)
      requires In(net, resolved) && WellWired(net.w) && Picks(walk)
      ensures id in net.w.specs && (r, next) == ItemsFrom(net.w, walk, tick, id, base, bindings, [])
      ensures var items := ItemsOf(net.w, id, base, bindings);
              && (r.Done? <==> items.Some? && DistinctIdentities(items.value)) && (r.Done? ==> items == Some(r.value))
    {
      hide In, WellWired, DistinctIdentities, Rendered, NodeContext, WithCollectionIndex, Originals, ItemFrom, RightKeys, IterationRefs;
      hide ItemsOf, SharedStates;
      TemplateKnown(net, resolved);
      assert bindings[..0] == [];
      NothingExpanded(net.w, id, base);
      ExpandedMeans(net.w, walk, tick, id, base, bindings, []);
      var states := IterationStates();
      var expanded: seq<Json> := [];
      var baseCtx := BuildContext(IterationRefs(Vars()), net, resolved);
      next := tick;
      for idx := 0 to |bindings|
        invariant |expanded| == idx
        invariant ItemsFrom(net.w, walk, next, id, base, bindings, expanded) ==
                  ItemsFrom(net.w, walk, tick, id, base, bindings, [])
      {
        var values;
        values, next := EvaluateItem(walk, next, states, baseCtx, bindings[idx], net, resolved);
        match values {
          case NotYet => return NotYet, next;
          case Failure => return Failure, next;
          case Done(own) =>
            var obj := Render(Vars(), base + own);
            if obj.None? {
              return Failure, next;
            }
            expanded := expanded + [WithCollectionIndex(obj.value, idx)];
        }
      }
      var distinct := ValidateUniqueIdentities(expanded);
      return if distinct then Done(expanded) else Failure, next;
    }

    /** The readiness of everything the node depends on, the instance aside, in any order. */
    method CheckDependencies(walk: Walk, tick: nat, ghost net: Net, ghost resolved: Desired) returns (r: Readiness, next: nat)
      requires In(net, resolved) && !kind.Instance? && Picks(walk)
      modifies net.states
      ensures WellWired(net.w) && Ranked(net.w, net.rank) && id in net.w.specs && net.w.specs[id].deps == deps.Keys
      ensures (r, Memory(CacheOf(net), next)) ==
              DependenciesFrom(net.w, net.rank, walk, Memory(old(CacheOf(net)), tick), resolved, id, deps.Keys)
    {
      hide In, WellWired, CacheOf, ReadyNow, Ranked, RightKeys, Right, CheckedMeans, SharedStates;
      RankedKnown(net, resolved);
      KnownDependencies(net, resolved);
      ghost var m := Memory(CacheOf(net), tick);
      next := tick;
      var todo := deps.Keys;
      while todo != {}
        invariant todo <= deps.Keys
        invariant DependenciesFrom(net.w, net.rank, walk, Memory(CacheOf(net), next), resolved, id, todo) ==
                  DependenciesFrom(net.w, net.rank, walk, m, resolved, id, deps.Keys)
        decreases todo
      {
        var depID := walk(next, todo);
        next := next + 1;
        todo := todo - {depID};
        if depID != INSTANCE {
          NotInstance(net, resolved, depID);
          var ready;
          ready, next := deps[depID].CheckReadiness(walk, next, net, resolved);
          if !ready.IsReady? {
            return ready, next;
          }
        }
      }
      return IsReady, next;
    }

    /** Records what the node is resolved to. */
    method Keep(objs: seq<Json>, ghost net: Net, ghost resolved: Desired)
      requires In(net, resolved)
      modifies this`desired
      ensures desired == Some(objs) && In(net, resolved[id := objs])
    {
      hide Wired;
      OtherNodes(net, resolved);
      desired := Some(objs);
    }

    lemma OtherNodes(net: Net, resolved: Desired)
      requires In(net, resolved)
      ensures forall other | other in net.nodes && other != id :: net.nodes[other] != this
    {
      assert forall other | other in net.nodes :: net.nodes[other].id == other;
    }

    /** Only the fields that identify the object, not gated by readiness, and nothing is recorded. */
    method GetDesiredIdentity(ghost net: Net, ghost resolved: Desired) returns (r: Attempt<Json>)
      requires In(net, resolved) && kind.External?
      modifies net.states
      ensures WellWired(net.w) && id in net.w.specs && net.w.specs[id].kind.External? && Paired()
      ensures (r, CacheOf(net)) == SingleNow(net.w, old(CacheOf(net)), id, IdentityVars(net.w.specs[id].vars))
      ensures old(Right(net)) ==> Right(net) && Identified(net.w, id, r)
    {
      hide In, CacheOf, SingleNow, Identified, Sound, Monotone, WellWired;
      TemplateKnown(net, resolved);
      if Right(net) {
        IdentifiedMeans(net.w, CacheOf(net), id);
      }
      r := HardResolveSingleResource(IdentityVars(Vars()), net, resolved);
    }

    /** Dependencies that are not ready are pending data; an error in checking them is fatal unless it is pending itself. */
    method Resolve(walk: Walk, tick: nat, ghost net: Net, ghost resolved: Desired) returns (r: Attempt<seq<Json>>, next: nat)
      requires In(net, resolved) && !kind.Instance? && Picks(walk) && id !in resolved
      modifies this`desired, net.states
      ensures WellWired(net.w) && Ranked(net.w, net.rank) && id in net.w.specs
      ensures In(net, if r.Done? then resolved[id := r.value] else resolved)
      ensures (r, Memory(CacheOf(net), next)) ==
              ResolveNow(net.w, net.rank, walk, Memory(old(CacheOf(net)), tick), resolved, id)
    {
      hide In, WellWired, CacheOf, DependenciesFrom, ObjectsNow, Ranked, Right, ObjectsAre, SharedStates;
      RankedKnown(net, resolved);
      var ready;
      ready, next := CheckDependencies(walk, tick, net, resolved);
      match ready {
        case Waiting => return NotYet, next;
        case NotCheckable(pending) => return if pending then NotYet else Failure, next;
        case IsReady =>
          r, next := HardResolve(walk, next, net, resolved);
          if r.Done? {
            Keep(r.value, net, resolved);
          }
      }
    }

    method HardResolve(walk: Walk, tick: nat, ghost net: Net, ghost resolved: Desired) returns (r: Attempt<seq<Json>>, next: nat)
      requires In(net, resolved) && !kind.Instance? && Picks(walk)
      modifies net.states
      ensures WellWired(net.w) && id in net.w.specs
      ensures (r, Memory(CacheOf(net), next)) == ObjectsNow(net.w, walk, Memory(old(CacheOf(net)), tick), id)
    {
      hide In, WellWired, CacheOf, SingleNow, Right, ObjectsAre, SharedStates;
      TemplateKnown(net, resolved);
      next := tick;
      if kind.Collection? {
        r, next := HardResolveCollection(walk, next, net, resolved);
      } else {
        var obj := HardResolveSingleResource(Vars(), net, resolved);
        match obj {
          case NotYet => return NotYet, next;
          case Failure => return Failure, next;
          case Done(o) => return Done([o]), next;
        }
      }
    }

    /** What is resolved stays resolved. */
    method GetDesired(walk: Walk, tick: nat, ghost net: Net, ghost resolved: Desired) returns (r: Attempt<seq<Json>>, next: nat)
      requires In(net, resolved) && !kind.Instance? && Picks(walk)
      modifies this`desired, net.states
      ensures WellWired(net.w) && Ranked(net.w, net.rank) && id in net.w.specs
      ensures desired == if r.Done? then Some(r.value) else old(desired)
      ensures In(net, if r.Done? then resolved[id := r.value] else resolved)
      ensures old(desired).Some? ==> r == Done(old(desired).value)
      ensures (r, Memory(CacheOf(net), next)) ==
              ResolveNow(net.w, net.rank, walk, Memory(old(CacheOf(net)), tick), resolved, id)
      ensures old(Right(net)) && old(desired).None? ==> Right(net) && ResolvedMeans(net.w, resolved, id, r)
    {
      hide In, WellWired, CacheOf, DependenciesFrom, ObjectsNow, Ranked, Sound, ResolvedMeans, SharedStates, Monotone;
      RankedKnown(net, resolved);
      Known(net, resolved);
      if Right(net) && desired.None? {
        ResolveMeans(net.w, net.rank, walk, Memory(CacheOf(net), tick), resolved, id);
      }
      if desired.Some? {
        assert resolved[id := desired.value] == resolved;
        return Done(desired.value), tick;
      }
      r, next := Resolve(walk, tick, net, resolved);
      Known(net, if r.Done? then resolved[id := r.value] else resolved);
    }

    /** Records what is observed; the items of a collection that is expanded already are put in its order. */
    method SetObserved(objs: seq<Json>, ghost net: Net, ghost resolved: Desired) returns (ghost net': Net)
      requires In(net, resolved) && (IsMany(kind) || objs != [])
      modifies this`observed
      ensures net' == Observing(net, id, if kind.Collection? && id in resolved then Aligned(objs, resolved[id]) else objs)
      ensures In(net', resolved)
    {
      hide In, WellWired;
      Known(net, resolved);
      var objects := objs;
      if kind.Collection? {
        objects := OrderedIntersection(objs, if desired.Some? then desired.value else []);
      }
      StillWellWired(net, id, objects);
      net' := Observing(net, id, objects);
      Observe(objects, net, resolved);
    }

    lemma DescribedSame(net: Net, objects: seq<Json>)
      ensures forall id | id in net.nodes :: net.nodes[id].Described(Observing(net, this.id, objects)) == net.nodes[id].Described(net)
    {
      hide Paired, Vars, Exprs, Dims, States;
    }

    method Observe(objects: seq<Json>, ghost net: Net, ghost resolved: Desired)
      requires In(net, resolved) && WellWired(Observing(net, id, objects).w)
      modifies this`observed
      ensures In(Observing(net, id, objects), resolved)
    {
      hide WellWired, Described;
      OtherNodes(net, resolved);
      DescribedSame(net, objects);
      observed := Some(objects);
    }
  }

  ghost function Observing(net: Net, id: ID, objs: seq<Json>): Net {
    net.(w := net.w.(observed := net.w.observed[id := objs]))
  }

  lemma StillWellWired(net: Net, id: ID, objs: seq<Json>)
    requires WellWired(net.w) && id in net.w.specs && (IsMany(net.w.specs[id].kind) || objs != [])
    ensures WellWired(Observing(net, id, objs).w)
  {
  }

  /** What is held stays right when a node is observed that was not observed before. */
  lemma MoreObserved(net: Net, id: ID, objs: seq<Json>)
    requires Right(net) && id in net.w.specs && id !in net.w.observed && (IsMany(net.w.specs[id].kind) || objs != [])
    ensures Right(Observing(net, id, objs))
  {
    hide Monotone, Within, FullContext, Summary, WellWired;
    var more := Observing(net, id, objs);
    StillWellWired(net, id, objs);
    MoreInContext(net, id, objs);
    assert CacheOf(more) == CacheOf(net);
    SoundWithin(net.w, more.w, CacheOf(net));
  }

  lemma MoreInContext(net: Net, id: ID, objs: seq<Json>)
    requires WellWired(net.w) && WellWired(Observing(net, id, objs).w) && id !in net.w.observed
    ensures Within(FullContext(net.w), FullContext(Observing(net, id, objs).w))
  {
  }

  /** The objects are as `net` says; the dependencies of every node but the instance are of lower rank. */
  ghost predicate Wired(net: Net)
    reads net.nodes.Values`deps, net.nodes.Values`observed
  {
    && WellWired(net.w) && SharedStates(net)
    && net.nodes.Keys == net.w.specs.Keys == net.rank.Keys
    && (forall id | id in net.nodes :: net.nodes[id].id == id && net.nodes[id].Shows(net))
    && Ranked(net.w, net.rank)
  }

  /** The desired objects are those of `desired`. */
  ghost predicate Holding(net: Net, desired: Desired)
    reads net.nodes.Values`desired
  {
    forall id | id in net.nodes :: net.nodes[id].desired == if id in desired then Some(desired[id]) else None
  }
}
