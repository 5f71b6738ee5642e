/** What a reconciliation decides, as functions of the specs, what is observed and what is resolved so far. */
module World {
  import opened Trees
  import opened Graphs

  datatype Kind = Resource | Collection | External | Instance | ExternalCollection

  /** An expression and the identifiers that the builder found in it. */
  datatype Expr = Expr(original: string, refs: set<string>)

  /** A template field; iteration expressions refer to forEach variables. */
  datatype Variable = Variable(path: string, expr: Expr, iteration: bool)

  datatype ForEach = ForEach(name: string, expr: Expr)

  /** A node as `FromGraph` has wired it. */
  datatype Spec = Spec(kind: Kind, deps: set<ID>, template: Json, vars: seq<Variable>,
                       includeWhen: seq<Expr>, readyWhen: seq<Expr>, forEach: seq<ForEach>)

  type Ctx = map<string, Json>

  datatype Eval = Value(v: Json) | Pending | Fatal

  /** CEL evaluation of an expression string in a context. */
  type Oracle = (string, Ctx) -> Eval

  /** Objects by node id: `observed` and `desired` have no entry where the source has nil. */
  datatype World = World(specs: map<ID, Spec>, observed: map<ID, seq<Json>>, eval: Oracle, maxCollectionSize: int)

  type Desired = map<ID, seq<Json>>

  const INSTANCE := "schema"
  const EACH := "each"

  predicate IsMany(kind: Kind) {
    kind.Collection? || kind.ExternalCollection?
  }

  /** The instance is there, dependencies are nodes, and a single resource is observed with an object or not at all. */
  ghost predicate WellWired(w: World) {
    && INSTANCE in w.specs && (forall id | id in w.specs :: w.specs[id].kind.Instance? <==> id == INSTANCE)
    && (forall id | id in w.specs :: w.specs[id].deps <= w.specs.Keys)
    && w.observed.Keys <= w.specs.Keys
    && forall id | id in w.observed :: IsMany(w.specs[id].kind) || w.observed[id] != []
  }

  function Observed(w: World, id: ID): seq<Json> {
    if id in w.observed then w.observed[id] else []
  }

  // ---- Contexts. ----

  function WithoutStatus(obj: Json): Json {
    if obj.Obj? then Obj(obj.fields - {"status"}) else obj
  }

  /** Nothing but the status is missing. */
  lemma WithoutStatusReads(obj: Json, p: Path)
    requires p != []
    ensures Get(WithoutStatus(obj), p) == if p[0] == Field("status") then None else Get(obj, p)
  {
  }

  /** What an identifier stands for: a list for collections, else the object; the instance without its status. */
  function ContextValue(w: World, id: ID): Json
    requires WellWired(w) && id in w.observed
  {
    if IsMany(w.specs[id].kind) then Arr(w.observed[id])
    else if id == INSTANCE then WithoutStatus(w.observed[id][0])
    else w.observed[id][0]
  }

  function FullContext(w: World): (ctx: Ctx)
    requires WellWired(w)
    ensures ctx.Keys == w.observed.Keys
  {
    map id | id in w.observed :: ContextValue(w, id)
  }

  /** The context of one node, narrowed to `only` unless that is empty. */
  function NodeContext(w: World, id: ID, only: set<string>): Ctx
    requires WellWired(w) && id in w.specs
  {
    map d | d in w.observed && d in w.specs[id].deps && (only == {} || d in only) :: ContextValue(w, d)
  }

  function OnlyThese(ctx: Ctx, ids: set<string>): Ctx {
    map x | x in ctx && x in ids :: ctx[x]
  }

  /** An expression without references gets the whole context. */
  function FilterContext(ctx: Ctx, refs: set<string>): Ctx {
    if refs == {} then ctx else OnlyThese(ctx, refs)
  }

  predicate Within(c: Ctx, d: Ctx) {
    forall x | x in c :: x in d && d[x] == c[x]
  }

  /** More bindings never change a value that was obtained with fewer. */
  ghost predicate Monotone(eval: Oracle) {
    forall e, c, d | Within(c, d) && eval(e, c).Value? :: eval(e, d) == eval(e, c)
  }

  /** Evaluation against everything that is observed. */
  function Fresh(w: World, e: Expr): Eval
    requires WellWired(w)
  {
    w.eval(e.original, FullContext(w))
  }

  predicate Holds(w: World, e: Expr)
    requires WellWired(w)
  {
    Fresh(w, e) == Value(Bool(true))
  }

  /** Null counts as false. */
  predicate Denies(w: World, e: Expr)
    requires WellWired(w)
  {
    Fresh(w, e) == Value(Bool(false)) || Fresh(w, e) == Value(Null)
  }

  predicate HoldsForEach(w: World, e: Expr, obj: Json) {
    w.eval(e.original, map[EACH := obj]) == Value(Bool(true))
  }

  // ---- Readiness. ----

  predicate AllItemsReady(w: World, id: ID)
    requires id in w.specs
  {
    forall o, e | o in Observed(w, id) && e in w.specs[id].readyWhen :: HoldsForEach(w, e, o)
  }

  /** Ready on the observed state, given the collections expanded so far. */
  predicate ObservedReady(w: World, desired: Desired, id: ID)
    requires WellWired(w) && id in w.specs
  {
    match w.specs[id].kind
    case Collection =>
      id in desired && (desired[id] == [] || (|Observed(w, id)| >= |desired[id]| && AllItemsReady(w, id)))
    case ExternalCollection => AllItemsReady(w, id)
    case _ => Observed(w, id) != [] && forall e | e in w.specs[id].readyWhen :: Holds(w, e)
  }

  // ---- Inclusion. ----

  /** The dependencies along which ignoring spreads; it never spreads through the instance. */
  function IgnoreGraph(w: World): Graph {
    map id | id in w.specs :: if w.specs[id].kind.Instance? then {} else w.specs[id].deps
  }

  /** References of conditions to other nodes than the instance. */
  function ConditionRefs(spec: Spec): set<ID> {
    set e, r | e in spec.includeWhen && r in e.refs && r != INSTANCE :: r
  }

  /** The node's own conditions are met, and the nodes they look at are ready. */
  predicate OwnConditions(w: World, desired: Desired, id: ID)
    requires WellWired(w) && id in w.specs
  {
    w.specs[id].kind.Instance? ||
    (&& (forall r | r in ConditionRefs(w.specs[id]) :: r in w.specs[id].deps && ObservedReady(w, desired, r))
     && (forall e | e in w.specs[id].includeWhen :: Holds(w, e)))
  }

  /** The conditions of the node and of everything it depends on, however indirectly, are met. */
  ghost predicate Included(w: World, desired: Desired, id: ID)
    requires WellWired(w) && id in w.specs
  {
    forall m | m in w.specs && Reaches(IgnoreGraph(w), id, m) :: OwnConditions(w, desired, m)
  }

  predicate Denied(w: World, id: ID)
    requires WellWired(w) && id in w.specs
  {
    !w.specs[id].kind.Instance? && exists e | e in w.specs[id].includeWhen :: Denies(w, e)
  }

  /** Some condition of the node or of something it depends on is false or null. */
  ghost predicate Excluded(w: World, id: ID)
    requires WellWired(w) && id in w.specs
  {
    exists m | m in w.specs && Reaches(IgnoreGraph(w), id, m) :: Denied(w, m)
  }

  lemma ExcludedNotIncluded(w: World, desired: Desired, id: ID)
    requires WellWired(w) && id in w.specs && Excluded(w, id)
    ensures !Included(w, desired, id)
  {
    var m :| m in w.specs && Reaches(IgnoreGraph(w), id, m) && Denied(w, m);
    assert !OwnConditions(w, desired, m);
  }

  lemma ReachesItself(g: Graph, a: ID)
    ensures Reaches(g, a, a)
  {
    assert IsPathBetween(g, [a], a, a);
  }

  lemma ReachesStep(g: Graph, a: ID, d: ID, m: ID)
    requires Edge(g, a, d) && Reaches(g, d, m)
    ensures Reaches(g, a, m)
  {
    var p :| IsPathBetween(g, p, d, m);
    JoinPaths(g, [a, d], p);
    assert IsPathBetween(g, [a, d] + p[1..], a, m);
  }

  lemma ReachesFirst(g: Graph, a: ID, m: ID) returns (d: ID)
    requires Reaches(g, a, m) && a != m
    ensures Edge(g, a, d) && Reaches(g, d, m)
  {
    var p :| IsPathBetween(g, p, a, m);
    d := p[1];
    SubPath(g, p, 1, |p|);
    assert IsPathBetween(g, p[1..], d, m);
    assert Edge(g, p[0], p[1]);
  }

  /** Inclusion can be decided from the node's own conditions and the inclusion of its dependencies. */
  lemma IncludedStep(w: World, desired: Desired, id: ID)
    requires WellWired(w) && id in w.specs && !w.specs[id].kind.Instance?
    ensures Included(w, desired, id) <==>
            OwnConditions(w, desired, id) && forall d | d in w.specs[id].deps :: Included(w, desired, d)
  {
    var g := IgnoreGraph(w);
    ReachesItself(g, id);
    if Included(w, desired, id) {
      forall d, m | d in w.specs[id].deps && m in w.specs && Reaches(g, d, m) ensures OwnConditions(w, desired, m) {
        ReachesStep(g, id, d, m);
      }
    }
    if OwnConditions(w, desired, id) && forall d | d in w.specs[id].deps :: Included(w, desired, d) {
      forall m | m in w.specs && Reaches(g, id, m) ensures OwnConditions(w, desired, m) {
        if m != id {
          var d := ReachesFirst(g, id, m);
          assert Included(w, desired, d);
        }
      }
    }
  }

  lemma ExcludedStep(w: World, id: ID, d: ID)
    requires WellWired(w) && id in w.specs && !w.specs[id].kind.Instance? && d in w.specs[id].deps && Excluded(w, d)
    ensures Excluded(w, id)
  {
    var m :| m in w.specs && Reaches(IgnoreGraph(w), d, m) && Denied(w, m);
    ReachesStep(IgnoreGraph(w), id, d, m);
  }

  lemma ExcludedHere(w: World, id: ID)
    requires WellWired(w) && id in w.specs && Denied(w, id)
    ensures Excluded(w, id)
  {
    ReachesItself(IgnoreGraph(w), id);
  }
}
