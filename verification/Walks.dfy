/**
  A run step by step, as a function of the order in which the keys of maps are handed out. Nodes are walked and
  expressions cached as in `kro/runtime`; what is said about all orders is said about all functions of type `Walk`.
 */
module Walks {
  import opened Trees
  import opened Graphs
  import opened Resolver
  import opened Objects
  import opened Expansion
  import opened World
  import opened Reconcile

  /** The key that is handed out next, from the number of keys handed out so far and those that are left. */
  type Walk = (nat, set<string>) -> string

  ghost predicate Picks(walk: Walk) {
    forall n, keys | keys != {} :: walk(n, keys) in keys
  }

  /** An expression state: one for every text, and one for every dimension. */
  datatype Key = Text(text: string) | Dim(id: ID, index: nat) | Unshared

  type Cache = map<Key, Json>

  datatype Memory = Memory(cache: Cache, tick: nat)

  datatype BoolEval = IsTrue | IsFalse | BoolPending | BoolFatal

  datatype Readiness = IsReady | Waiting | NotCheckable(pending: bool)

  datatype Ignoring = NotIgnored | Ignored | Undecided(pending: bool)

  datatype Attempt<T> = Done(value: T) | NotYet | Failure

  /** What a cached evaluation returns, and the cache afterwards. */
  function CachedEval(eval: Oracle, e: Expr, cache: Option<Json>, ctx: Ctx): (Eval, Option<Json>) {
    if cache.Some? then (Value(cache.value), cache)
    else
      var r := eval(e.original, FilterContext(ctx, e.refs));
      (r, if r.Value? then Some(r.v) else None)
  }

  function Look(eval: Oracle, cache: Cache, key: Key, e: Expr, ctx: Ctx): (Eval, Cache) {
    var (r, kept) := CachedEval(eval, e, if key in cache then Some(cache[key]) else None, ctx);
    (r, if kept.Some? then cache[key := kept.value] else cache)
  }

  /** Null counts as false. */
  function Judge(r: Eval): BoolEval {
    match r
    case Pending => BoolPending
    case Fatal => BoolFatal
    case Value(Bool(b)) => if b then IsTrue else IsFalse
    case Value(Null) => IsFalse
    case Value(_) => BoolFatal
  }

  // ---- Readiness. ----

  function SingleFrom(w: World, cache: Cache, id: ID, i: nat): (Readiness, Cache)
    requires id in w.specs && Observed(w, id) != []
    decreases |w.specs[id].readyWhen| - i
  {
    var es := w.specs[id].readyWhen;
    if i >= |es| then (IsReady, cache)
    else
      var (v, c) := Look(w.eval, cache, Text(es[i].original), es[i], map[id := Observed(w, id)[0]]);
      match Judge(v)
      case IsTrue => SingleFrom(w, c, id, i + 1)
      case BoolFatal => (NotCheckable(false), c)
      case _ => (Waiting, c)
  }

  function ItemsReady(eval: Oracle, es: seq<Expr>, items: seq<Json>, k: nat, j: nat): Readiness
    decreases |items| - k, |es| - j
  {
    if k >= |items| then IsReady
    else if j >= |es| then ItemsReady(eval, es, items, k + 1, 0)
    else
      var v := eval(es[j].original, map[EACH := items[k]]);
      if v == Value(Bool(true)) then ItemsReady(eval, es, items, k, j + 1)
      else if v.Pending? || v == Value(Bool(false)) then Waiting else NotCheckable(false)
  }

  function ManyNow(w: World, desired: Desired, id: ID): Readiness
    requires id in w.specs
  {
    var es, items := w.specs[id].readyWhen, Observed(w, id);
    if w.specs[id].kind.ExternalCollection? then
      if es == [] || items == [] then IsReady else ItemsReady(w.eval, es, items, 0, 0)
    else if id !in desired then Waiting
    else if desired[id] == [] then IsReady
    else if |items| < |desired[id]| then Waiting
    else if es == [] then IsReady
    else ItemsReady(w.eval, es, items, 0, 0)
  }

  function ObservedNow(w: World, cache: Cache, desired: Desired, id: ID): (Readiness, Cache)
    requires id in w.specs
  {
    if IsMany(w.specs[id].kind) then (ManyNow(w, desired, id), cache)
    else if Observed(w, id) == [] then (Waiting, cache)
    else SingleFrom(w, cache, id, 0)
  }

  // ---- Ignoring. ----

  /** The nodes that the conditions look at, in the order of the walk. */
  function RefsFrom(w: World, walk: Walk, m: Memory, desired: Desired, id: ID, todo: set<ID>): (Ignoring, Memory)
    requires WellWired(w) && id in w.specs && Picks(walk)
    decreases todo
  {
    if todo == {} then (NotIgnored, m)
    else
      var d := walk(m.tick, todo);
      if d !in w.specs[id].deps then (Undecided(false), Memory(m.cache, m.tick + 1))
      else
        var (r, c) := ObservedNow(w, m.cache, desired, d);
        var next := Memory(c, m.tick + 1);
        match r
        case IsReady => RefsFrom(w, walk, next, desired, id, todo - {d})
        case Waiting => (Undecided(true), next)
        case NotCheckable(pending) => (Undecided(pending), next)
  }

  lemma RefsStep(w: World, walk: Walk, m: Memory, desired: Desired, id: ID, todo: set<ID>)
    requires WellWired(w) && id in w.specs && Picks(walk)
    ensures var d := walk(m.tick, todo);
            RefsFrom(w, walk, m, desired, id, todo) ==
            if todo == {} then (NotIgnored, m)
            else if d !in w.specs[id].deps then (Undecided(false), Memory(m.cache, m.tick + 1))
            else
              var (r, c) := ObservedNow(w, m.cache, desired, d);
              match r
              case IsReady => RefsFrom(w, walk, Memory(c, m.tick + 1), desired, id, todo - {d})
              case Waiting => (Undecided(true), Memory(c, m.tick + 1))
              case NotCheckable(pending) => (Undecided(pending), Memory(c, m.tick + 1))
    ensures todo != {} ==> walk(m.tick, todo) in todo
  {
    hide ObservedNow, WellWired;
  }

  function NeededBy(es: seq<Expr>): set<string> {
    set e, r | e in es && r in e.refs :: r
  }

  function ConditionsFrom(w: World, cache: Cache, id: ID, i: nat): (Ignoring, Cache)
    requires WellWired(w) && id in w.specs
    decreases |w.specs[id].includeWhen| - i
  {
    var es := w.specs[id].includeWhen;
    if i >= |es| then (NotIgnored, cache)
    else
      var (v, c) := Look(w.eval, cache, Text(es[i].original), es[i], NodeContext(w, id, NeededBy(es)));
      match Judge(v)
      case IsTrue => ConditionsFrom(w, c, id, i + 1)
      case IsFalse => (Ignored, c)
      case BoolPending => (Undecided(es[i].refs - {INSTANCE} != {}), c)
      case BoolFatal => (Undecided(false), c)
  }

  function ConditionsNow(w: World, walk: Walk, m: Memory, desired: Desired, id: ID): (Ignoring, Memory)
    requires WellWired(w) && id in w.specs && Picks(walk)
  {
    var (refs, next) := RefsFrom(w, walk, m, desired, id, NeededBy(w.specs[id].includeWhen) - {INSTANCE});
    if !refs.NotIgnored? then (refs, next)
    else
      var (r, c) := ConditionsFrom(w, next.cache, id, 0);
      (r, Memory(c, next.tick))
  }

  /** Ranks fall along dependencies, the instance's aside. */
  ghost predicate Ranked(w: World, rank: map<ID, nat>) {
    forall id, d | id in w.specs && !w.specs[id].kind.Instance? && d in w.specs[id].deps ::
      id in rank && d in rank && rank[d] < rank[id]
  }

  function IgnoredNow(w: World, rank: map<ID, nat>, walk: Walk, m: Memory, desired: Desired, id: ID): (Ignoring, Memory)
    requires WellWired(w) && id in w.specs && Picks(walk) && Ranked(w, rank)
    decreases if id in rank then rank[id] else 0, 1
  {
    if w.specs[id].kind.Instance? then (NotIgnored, m)
    else
      var (r, next) := IgnoredFrom(w, rank, walk, m, desired, id, w.specs[id].deps);
      if r.NotIgnored? then ConditionsNow(w, walk, next, desired, id) else (r, next)
  }

  function IgnoredFrom(w: World, rank: map<ID, nat>, walk: Walk, m: Memory, desired: Desired, id: ID, todo: set<ID>)
    : (Ignoring, Memory)
    requires WellWired(w) && id in w.specs && !w.specs[id].kind.Instance? && Picks(walk) && Ranked(w, rank)
    requires todo <= w.specs[id].deps
    decreases if id in rank then rank[id] else 0, 0, todo
  {
    if todo == {} then (NotIgnored, m)
    else
      var d := walk(m.tick, todo);
      var (r, next) := IgnoredNow(w, rank, walk, Memory(m.cache, m.tick + 1), desired, d);
      if r.NotIgnored? then IgnoredFrom(w, rank, walk, next, desired, id, todo - {d}) else (r, next)
  }

  lemma IgnoredStep(w: World, rank: map<ID, nat>, walk: Walk, m: Memory, desired: Desired, id: ID, todo: set<ID>)
    requires WellWired(w) && id in w.specs && !w.specs[id].kind.Instance? && Picks(walk) && Ranked(w, rank)
    requires todo <= w.specs[id].deps
    ensures IgnoredFrom(w, rank, walk, m, desired, id, todo) ==
            if todo == {} then (NotIgnored, m)
            else
              var d := walk(m.tick, todo);
              var (r, next) := IgnoredNow(w, rank, walk, Memory(m.cache, m.tick + 1), desired, d);
              if r.NotIgnored? then IgnoredFrom(w, rank, walk, next, desired, id, todo - {d}) else (r, next)
    ensures todo != {} ==> walk(m.tick, todo) in todo
  {
    hide IgnoredNow;
  }

  function ReadyNow(w: World, rank: map<ID, nat>, walk: Walk, m: Memory, desired: Desired, id: ID): (Readiness, Memory)
    requires WellWired(w) && id in w.specs && Picks(walk) && Ranked(w, rank)
  {
    var (ignored, next) := IgnoredNow(w, rank, walk, m, desired, id);
    match ignored
    case Undecided(pending) => (NotCheckable(pending), next)
    case Ignored => (IsReady, next)
    case NotIgnored =>
      var (r, c) := ObservedNow(w, next.cache, desired, id);
      (r, Memory(c, next.tick))
  }

  // ---- Resolving. ----

  function DependenciesFrom(w: World, rank: map<ID, nat>, walk: Walk, m: Memory, desired: Desired, id: ID, todo: set<ID>)
    : (Readiness, Memory)
    requires WellWired(w) && id in w.specs && Picks(walk) && Ranked(w, rank) && todo <= w.specs[id].deps
    decreases todo
  {
    if todo == {} then (IsReady, m)
    else
      var d := walk(m.tick, todo);
      if d == INSTANCE then DependenciesFrom(w, rank, walk, Memory(m.cache, m.tick + 1), desired, id, todo - {d})
      else
        var (r, next) := ReadyNow(w, rank, walk, Memory(m.cache, m.tick + 1), desired, d);
        if r.IsReady? then DependenciesFrom(w, rank, walk, next, desired, id, todo - {d}) else (r, next)
  }

  /** Identifiers that the fields with these expressions refer to; forEach variables are bound later. */
  function FieldRefs(vars: seq<Variable>, only: set<string>): set<string> {
    set v, r | v in vars && !v.iteration && v.expr.original in only && r in v.expr.refs :: r
  }

  /** The values of the expressions in `only`, in the order of the fields. */
  function BaseFrom(w: World, cache: Cache, id: ID, only: set<string>, i: nat, values: Data): (Attempt<Data>, Cache)
    requires WellWired(w) && id in w.specs
    decreases |w.specs[id].vars| - i
  {
    var vars := w.specs[id].vars;
    if i >= |vars| then (Done(values), cache)
    else if vars[i].iteration || vars[i].expr.original !in only then BaseFrom(w, cache, id, only, i + 1, values)
    else
      var e := vars[i].expr;
      var (v, c) := Look(w.eval, cache, Text(e.original), e, NodeContext(w, id, FieldRefs(vars, only)));
      match v
      case Pending => (NotYet, c)
      case Fatal => (Failure, c)
      case Value(x) => BaseFrom(w, c, id, only, i + 1, values[e.original := x])
  }

  /** The template with some of its fields filled in. */
  function SingleNow(w: World, cache: Cache, id: ID, vars: seq<Variable>): (Attempt<Json>, Cache)
    requires WellWired(w) && id in w.specs
  {
    var (base, c) := BaseFrom(w, cache, id, Originals(vars, false), 0, map[]);
    match base
    case NotYet => (NotYet, c)
    case Failure => (Failure, c)
    case Done(data) =>
      match Rendered(w.specs[id].template, Descriptors(vars), data)
      case Some(obj) => (Done(obj), c)
      case None => (Failure, c)
  }

  function DimensionRefs(forEach: seq<ForEach>): set<string> {
    set f, r | f in forEach && r in f.expr.refs :: r
  }

  function ForEachFrom(w: World, cache: Cache, id: ID, i: nat, dims: seq<Dimension>): (Attempt<seq<Binding>>, Cache)
    requires WellWired(w) && id in w.specs && NoneEmpty(Lengths(dims))
    decreases |w.specs[id].forEach| - i
  {
    var all := w.specs[id].forEach;
    if i >= |all| then
      (if Product(Lengths(dims)) > w.maxCollectionSize then Failure
       else Done(seq(Product(Lengths(dims)), k requires 0 <= k < Product(Lengths(dims)) => Combination(dims, k))), cache)
    else
      var (v, c) := Look(w.eval, cache, Dim(id, i), all[i].expr, NodeContext(w, id, DimensionRefs(all)));
      match v
      case Pending => (NotYet, c)
      case Fatal => (Failure, c)
      case Value(Arr(values)) =>
        if values == [] then (Done([]), c) else ForEachFrom(w, c, id, i + 1, dims + [Dimension(all[i].name, values)])
      case Value(_) => (Failure, c)
  }

  function ForEachNow(w: World, cache: Cache, id: ID): (Attempt<seq<Binding>>, Cache)
    requires WellWired(w) && id in w.specs
  {
    if w.specs[id].forEach == [] then (Done([]), cache) else ForEachFrom(w, cache, id, 0, [])
  }

  function ItemFrom(w: World, walk: Walk, tick: nat, ctx: Ctx, todo: set<string>, values: Data): (Attempt<Data>, nat)
    requires Picks(walk)
    decreases todo
  {
    if todo == {} then (Done(values), tick)
    else
      var o := walk(tick, todo);
      match w.eval(o, ctx)
      case Pending => (NotYet, tick + 1)
      case Fatal => (Failure, tick + 1)
      case Value(x) => ItemFrom(w, walk, tick + 1, ctx, todo - {o}, values[o := x])
  }

  function ItemsFrom(w: World, walk: Walk, tick: nat, id: ID, base: Data, bindings: seq<Binding>, objs: seq<Json>)
    : (Attempt<seq<Json>>, nat)
    requires WellWired(w) && id in w.specs && Picks(walk)
    decreases |bindings| - |objs|
  {
    var spec, k := w.specs[id], |objs|;
    if k >= |bindings| then (if DistinctIdentities(objs) then Done(objs) else Failure, tick)
    else
      var (values, next) := ItemFrom(w, walk, tick, IterationContext(w, id, bindings[k]), Originals(spec.vars, true), map[]);
      match values
      case NotYet => (NotYet, next)
      case Failure => (Failure, next)
      case Done(data) =>
        match Rendered(spec.template, Descriptors(spec.vars), base + data)
        case None => (Failure, next)
        case Some(obj) => ItemsFrom(w, walk, next, id, base, bindings, objs + [WithCollectionIndex(obj, k)])
  }

  function ObjectsNow(w: World, walk: Walk, m: Memory, id: ID): (Attempt<seq<Json>>, Memory)
    requires WellWired(w) && id in w.specs && Picks(walk)
  {
    var spec := w.specs[id];
    if !spec.kind.Collection? then
      var (obj, c) := SingleNow(w, m.cache, id, spec.vars);
      (match obj case Done(o) => Done([o]) case NotYet => NotYet case Failure => Failure, Memory(c, m.tick))
    else
      var (base, c) := BaseFrom(w, m.cache, id, Originals(spec.vars, false), 0, map[]);
      match base
      case NotYet => (NotYet, Memory(c, m.tick))
      case Failure => (Failure, Memory(c, m.tick))
      case Done(data) =>
        var (bindings, c') := ForEachNow(w, c, id);
        match bindings
        case NotYet => (NotYet, Memory(c', m.tick))
        case Failure => (Failure, Memory(c', m.tick))
        case Done(bs) =>
          var (items, tick) := ItemsFrom(w, walk, m.tick, id, data, bs, []);
          (items, Memory(c', tick))
  }

  function ResolveNow(w: World, rank: map<ID, nat>, walk: Walk, m: Memory, desired: Desired, id: ID)
    : (Attempt<seq<Json>>, Memory)
    requires WellWired(w) && id in w.specs && Picks(walk) && Ranked(w, rank)
  {
    if id in desired then (Done(desired[id]), m)
    else
      var (ready, next) := DependenciesFrom(w, rank, walk, m, desired, id, w.specs[id].deps);
      match ready
      case Waiting => (NotYet, next)
      case NotCheckable(pending) => (if pending then NotYet else Failure, next)
      case IsReady => ObjectsNow(w, walk, next, id)
  }

  // ---- What is asked for external nodes. ----

  datatype State = State(ok: bool, out: map<string, Composed>, desired: Desired, memory: Memory)

  /** The fields that say which object an external node stands for. */
  function IdentityVars(vars: seq<Variable>): seq<Variable> {
    if vars == [] then []
    else
      var v := vars[|vars| - 1];
      IdentityVars(vars[..|vars| - 1]) + if v.path == "metadata.name" || v.path == "metadata.namespace" then [v] else []
  }

  /** Null stands for the empty string. */
  predicate IsText(x: Json) {
    x.Str? || x.Null?
  }

  function Member(fields: map<string, Json>, name: string): Json {
    if name in fields then fields[name] else Null
  }

  /** A requirement of a label selector: a key, an operator and values, each if present. */
  predicate IsRequirement(x: Json) {
    match x
    case Obj(fields) =>
      IsText(Member(fields, "key")) && IsText(Member(fields, "operator")) && IsTextList(Member(fields, "values"))
    case _ => x.Null?
  }

  predicate IsTextList(x: Json) {
    x.Null? || (x.Arr? && forall y | y in x.items :: IsText(y))
  }

  predicate IsLabels(x: Json) {
    x.Null? || (x.Obj? && forall k | k in x.fields :: IsText(x.fields[k]))
  }

  predicate AreRequirements(x: Json) {
    x.Null? || (x.Arr? && forall y | y in x.items :: IsRequirement(y))
  }

  function SelectorIn(obj: Json): Option<Json> {
    Get(obj, [Field("metadata"), Field("selector")])
  }

  /** A label selector can be read off the object: its labels are strings, and its expressions are requirements. */
  predicate HasSelector(obj: Json) {
    match SelectorIn(obj)
    case Some(Obj(fields)) => IsLabels(Member(fields, "matchLabels")) && AreRequirements(Member(fields, "matchExpressions"))
    case _ => false
  }

  /** An external node is identified if it can be; one that stands for many is resolved. */
  function SelectNow(w: World, rank: map<ID, nat>, walk: Walk, s: State, id: ID): State
    requires WellWired(w) && id in w.specs && Picks(walk) && Ranked(w, rank)
  {
    match w.specs[id].kind
    case External =>
      var (obj, c) := SingleNow(w, s.memory.cache, id, IdentityVars(w.specs[id].vars));
      s.(ok := !obj.Failure?, memory := Memory(c, s.memory.tick))
    case ExternalCollection =>
      var (objs, next) := ResolveNow(w, rank, walk, s.memory, s.desired, id);
      (match objs
       case NotYet => s.(memory := next)
       case Failure => s.(ok := false, memory := next)
       case Done(o) => s.(ok := o == [] || HasSelector(o[0]), desired := s.desired[id := o], memory := next))
    case _ => s
  }

  /** The external nodes of `order` from `k` on; an error that is not for want of data ends the reconciliation. */
  function SelectFrom(w: World, rank: map<ID, nat>, walk: Walk, s: State, order: seq<ID>, k: nat): State
    requires WellWired(w) && Picks(walk) && Ranked(w, rank) && forall id | id in order :: id in w.specs
    decreases |order| - k
  {
    if k >= |order| || !s.ok then s
    else SelectFrom(w, rank, walk, SelectNow(w, rank, walk, s, order[k]), order, k + 1)
  }

  // ---- The run. ----

  function ReadyStateNow(w: World, rank: map<ID, nat>, walk: Walk, m: Memory, desired: Desired, id: ID): (ReadyState, Memory)
    requires WellWired(w) && id in w.specs && Picks(walk) && Ranked(w, rank)
  {
    if w.specs[id].readyWhen == [] then (Unspecified, m)
    else
      var (r, next) := ReadyNow(w, rank, walk, m, desired, id);
      (if r.IsReady? then Ready else NotReady, next)
  }

  /** The objects of a resolved node from `i` on, each with the ready state that it has when its turn comes. */
  function EmitFrom(w: World, rank: map<ID, nat>, walk: Walk, s: State, id: ID, objs: seq<Json>, i: nat): State
    requires WellWired(w) && id in w.specs && Picks(walk) && Ranked(w, rank)
    decreases |objs| - i
  {
    if i >= |objs| then s
    else
      var (state, m) := ReadyStateNow(w, rank, walk, s.memory, s.desired, id);
      EmitFrom(w, rank, walk, s.(out := s.out[ResourceName(w, id, objs[i]) := Composed(objs[i], state)], memory := m), id, objs, i + 1)
  }

  function VisitNow(w: World, rank: map<ID, nat>, walk: Walk, s: State, id: ID): State
    requires WellWired(w) && id in w.specs && Picks(walk) && Ranked(w, rank)
  {
    if w.specs[id].kind.External? || w.specs[id].kind.ExternalCollection? then s
    else
      var (ignored, m) := IgnoredNow(w, rank, walk, s.memory, s.desired, id);
      if !ignored.NotIgnored? then s.(memory := m)
      else
        var (objs, next) := ResolveNow(w, rank, walk, m, s.desired, id);
        match objs
        case NotYet => s.(memory := next)
        case Failure => s.(ok := false, memory := next)
        case Done(o) => EmitFrom(w, rank, walk, s.(desired := s.desired[id := o], memory := next), id, o, 0)
  }

  /** The nodes of `order` from `k` on; an error ends the run. */
  function RunFrom(w: World, rank: map<ID, nat>, walk: Walk, s: State, order: seq<ID>, k: nat): State
    requires WellWired(w) && Picks(walk) && Ranked(w, rank) && forall id | id in order :: id in w.specs
    decreases |order| - k
  {
    if k >= |order| || !s.ok then s
    else RunFrom(w, rank, walk, VisitNow(w, rank, walk, s, order[k]), order, k + 1)
  }
}
