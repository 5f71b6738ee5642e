/** How a runtime is built from a graph: `FromGraph` in `kro/runtime/runtime.go`. */
module Wiring {
  import opened Sets
  import opened Trees
  import opened Graphs
  import opened World
  import opened Reconcile
  import opened Nodes
  import opened Run
  import opened Walks
  import Naming

  datatype GraphNode = GraphNode(kind: Kind, dependencies: seq<ID>, template: Json, vars: seq<Variable>,
                                 includeWhen: seq<Expr>, readyWhen: seq<Expr>, forEach: seq<ForEach>)

  datatype ResourceGraph = ResourceGraph(order: seq<ID>, nodes: map<ID, GraphNode>, instance: GraphNode)

  // ---- Sharing of expression states. ----

  /** The expressions of the states that exist already, by their text. */
  type Seen = map<string, Expr>

  /** The first expression with a text is the one that all others with the same text use. */
  function Remember(seen: Seen, e: Expr): Seen {
    if e.original in seen then seen else seen[e.original := e]
  }

  function RememberAll(seen: Seen, es: seq<Expr>): Seen {
    if es == [] then seen else Remember(RememberAll(seen, es[..|es| - 1]), es[|es| - 1])
  }

  lemma {:induction false} RememberMore(seen: Seen, a: seq<Expr>, b: seq<Expr>)
    ensures RememberAll(seen, a + b) == RememberAll(RememberAll(seen, a), b)
  {
    if b == [] {
      assert a + b == a;
    } else {
      RememberMore(seen, a, b[..|b| - 1]);
      assert (a + b)[..|a + b| - 1] == a + b[..|b| - 1];
    }
  }

  /** What is remembered stays, and everything asked for is remembered. */
  lemma {:induction false} RememberKeeps(seen: Seen, es: seq<Expr>)
    ensures forall o | o in seen :: o in RememberAll(seen, es) && RememberAll(seen, es)[o] == seen[o]
    ensures forall e | e in es :: e.original in RememberAll(seen, es)
    ensures forall o | o in RememberAll(seen, es) && o !in seen ::
              RememberAll(seen, es)[o] in es && RememberAll(seen, es)[o].original == o
  {
    if es != [] {
      RememberKeeps(seen, es[..|es| - 1]);
      assert es == es[..|es| - 1] + [es[|es| - 1]];
    }
  }

  function Pick(seen: Seen, e: Expr): Expr {
    if e.original in seen then seen[e.original] else e
  }

  function PickAll(seen: Seen, es: seq<Expr>): (r: seq<Expr>)
    ensures |r| == |es|
  {
    seq(|es|, i requires 0 <= i < |es| => Pick(seen, es[i]))
  }

  /** Iteration expressions are not shared. */
  function PickVars(seen: Seen, vars: seq<Variable>): (r: seq<Variable>)
    ensures |r| == |vars|
  {
    seq(|vars|, i requires 0 <= i < |vars| =>
      if vars[i].iteration then vars[i] else Variable(vars[i].path, Pick(seen, vars[i].expr), false))
  }

  function SharedOf(vars: seq<Variable>): seq<Expr> {
    if vars == [] then []
    else
      var v := vars[|vars| - 1];
      SharedOf(vars[..|vars| - 1]) + if v.iteration then [] else [v.expr]
  }

  lemma {:induction false} SharedOfVars(vars: seq<Variable>)
    ensures forall v | v in vars && !v.iteration :: v.expr in SharedOf(vars)
    ensures forall e | e in SharedOf(vars) :: exists v :: v in vars && !v.iteration && v.expr == e
  {
    if vars != [] {
      var n := |vars| - 1;
      SharedOfVars(vars[..n]);
      assert vars == vars[..n] + [vars[n]];
      forall e | e in SharedOf(vars) ensures exists v :: v in vars && !v.iteration && v.expr == e {
        if e in SharedOf(vars[..n]) {
          var v :| v in vars[..n] && !v.iteration && v.expr == e;
          assert v in vars;
        } else {
          assert vars[n] in vars;
        }
      }
    }
  }

  /** The shared expressions of a node in the order in which they are asked for. */
  function Asked(n: GraphNode): seq<Expr> {
    n.includeWhen + n.readyWhen + SharedOf(n.vars)
  }

  function AskedBefore(g: ResourceGraph, k: nat): seq<Expr>
    requires k <= |g.order| && Elems(g.order) <= g.nodes.Keys
  {
    if k == 0 then [] else AskedBefore(g, k - 1) + Asked(g.nodes[g.order[k - 1]])
  }

  function SeenIn(g: ResourceGraph): Seen
    requires Elems(g.order) <= g.nodes.Keys
  {
    RememberAll(map[], AskedBefore(g, |g.order|) + SharedOf(g.instance.vars))
  }

  // ---- What the wired network looks like. ----

  /** The instance is there for every node; other dependencies only if they are nodes. */
  function Linked(g: ResourceGraph, n: GraphNode): set<ID> {
    (set d | d in n.dependencies && d in g.nodes) + if n.kind.Instance? then {} else {INSTANCE}
  }

  function WiredSpec(g: ResourceGraph, seen: Seen, n: GraphNode): Spec {
    Spec(n.kind, Linked(g, n), n.template, PickVars(seen, n.vars), PickAll(seen, n.includeWhen),
         PickAll(seen, n.readyWhen), n.forEach)
  }

  predicate OwnTexts(seen: Seen) {
    forall o | o in seen :: seen[o].original == o
  }

  /** A wired node is the graph's: whatever states it shares, texts, paths and places stay. */
  lemma WiredNode(g: ResourceGraph, seen: Seen, n: GraphNode)
    requires OwnTexts(seen)
    ensures var s := WiredSpec(g, seen, n);
            && s.kind == n.kind && s.template == n.template && s.forEach == n.forEach
            && (forall d :: d in s.deps <==> (d in n.dependencies && d in g.nodes) || (d == "schema" && !n.kind.Instance?))
            && |s.vars| == |n.vars| && |s.includeWhen| == |n.includeWhen| && |s.readyWhen| == |n.readyWhen|
            && (forall i | 0 <= i < |n.vars| :: s.vars[i].path == n.vars[i].path && s.vars[i].iteration == n.vars[i].iteration
                 && s.vars[i].expr.original == n.vars[i].expr.original && (n.vars[i].iteration ==> s.vars[i] == n.vars[i]))
            && (forall i | 0 <= i < |n.includeWhen| :: s.includeWhen[i].original == n.includeWhen[i].original)
            && (forall i | 0 <= i < |n.readyWhen| :: s.readyWhen[i].original == n.readyWhen[i].original)
  {
  }

  /** The first expression with a text is the one that is kept. */
  lemma {:induction false} FirstIsKept(es: seq<Expr>, o: string)
    ensures o in RememberAll(map[], es) <==> exists i :: 0 <= i < |es| && es[i].original == o
    ensures o in RememberAll(map[], es) ==>
              exists i :: 0 <= i < |es| && es[i] == RememberAll(map[], es)[o] && es[i].original == o && forall j | 0 <= j < i :: es[j].original != o
  {
    if es != [] {
      var n := |es| - 1;
      FirstIsKept(es[..n], o);
      if o in RememberAll(map[], es[..n]) {
        var i :| 0 <= i < n && es[..n][i] == RememberAll(map[], es[..n])[o] && es[..n][i].original == o && forall j | 0 <= j < i :: es[..n][j].original != o;
        assert es[i] == es[..n][i] && forall j | 0 <= j < i :: es[j] == es[..n][j];
      } else {
        assert forall j | 0 <= j < n :: es[j] == es[..n][j];
      }
    }
  }

  function WiredSpecs(g: ResourceGraph, seen: Seen): map<ID, Spec> {
    (map id | id in g.nodes :: WiredSpec(g, seen, g.nodes[id]))[INSTANCE := WiredSpec(g, seen, InstanceOf(g))]
  }

  /** Only the fields of the instance's status take part. */
  function InstanceOf(g: ResourceGraph): GraphNode {
    GraphNode(Instance, g.instance.dependencies, g.instance.template, g.instance.vars, [], [], [])
  }

  function DependencyGraph(g: ResourceGraph): Graph {
    map id | id in g.nodes :: Elems(g.nodes[id].dependencies)
  }

  /** What the graph builder hands over. */
  ghost predicate Built(g: ResourceGraph) {
    && IsTopological(DependencyGraph(g), g.order)
    && INSTANCE !in g.nodes && (forall id | id in g.nodes :: !g.nodes[id].kind.Instance?)
    && forall id | id in g.nodes && (g.nodes[id].kind.Resource? || g.nodes[id].kind.Collection?) :: Naming.ValidID(id)
  }

  // ---- Creating states and nodes. ----

  lemma PickStable(seen: Seen, es: seq<Expr>, more: seq<Expr>)
    requires forall e | e in es :: e.original in seen
    ensures PickAll(RememberAll(seen, more), es) == PickAll(seen, es)
  {
    RememberKeeps(seen, more);
    forall i | 0 <= i < |es| ensures Pick(RememberAll(seen, more), es[i]) == Pick(seen, es[i]) {
      assert es[i] in es;
    }
  }

  lemma PickVarsStable(seen: Seen, vars: seq<Variable>, more: seq<Expr>)
    requires forall e | e in SharedOf(vars) :: e.original in seen
    ensures PickVars(RememberAll(seen, more), vars) == PickVars(seen, vars)
  {
    RememberKeeps(seen, more);
    SharedOfVars(vars);
    forall i | 0 <= i < |vars| && !vars[i].iteration
      ensures Pick(RememberAll(seen, more), vars[i].expr) == Pick(seen, vars[i].expr)
    {
      assert vars[i] in vars;
    }
  }

  class ExpressionsCache {
    const eval: Oracle
    var cache: map<string, ExprState>
    ghost var states: set<ExprState>

    constructor (eval: Oracle)
      ensures Valid() && this.eval == eval && Seen() == map[] && states == {}
    {
      this.eval, cache, states := eval, map[], {};
    }

    /** Nothing is evaluated yet. */
    ghost predicate Valid()
      reads this, states
    {
      && (forall s | s in states :: s.eval == eval && !s.resolved) && Keyed(states)
      && (forall o | o in cache :: cache[o] in states && cache[o].expr.original == o && cache[o].key == Text(o) && !cache[o].iteration)
      && forall s | s in states && s.key.Text? :: s.key.text in cache && cache[s.key.text] == s
    }

    /** No state of a dimension of the node exists. */
    ghost predicate NoDims(id: ID)
      reads this
    {
      forall s | s in states :: !(s.key.Dim? && s.key.id == id)
    }

    ghost function Seen(): Seen
      reads this
    {
      map o | o in cache :: cache[o].expr
    }

    method GetOrCreateExpr(expr: Expr, iteration: bool, ghost own: Key) returns (state: ExprState)
      requires Valid() && !own.Text? && (own.Dim? ==> forall s | s in states :: s.key != own)
      modifies this
      ensures Valid() && fresh(states - old(states)) && old(states) + {state} <= states <= old(states) + {state}
      ensures state.key == (if iteration then own else Text(state.expr.original)) && state.expr.original == expr.original
      ensures Seen() == if iteration then old(Seen()) else Remember(old(Seen()), expr)
      ensures state.iteration == iteration && state.expr == if iteration then expr else Pick(Seen(), expr)
    {
      if !iteration && expr.original in cache {
        return cache[expr.original];
      }
      state := new ExprState(expr, iteration, eval, if iteration then own else Text(expr.original));
      states := states + {state};
      if !iteration {
        cache := cache[expr.original := state];
      }
    }

    method GetOrCreateAll(es: seq<Expr>) returns (r: seq<ExprState>)
      requires Valid()
      modifies this
      ensures Valid() && fresh(states - old(states)) && old(states) + Elems(r) <= states
      ensures Seen() == RememberAll(old(Seen()), es) && Exprs(r) == PickAll(Seen(), es)
      ensures (forall s | s in r :: s.key == Text(s.expr.original)) && forall id | old(NoDims(id)) :: NoDims(id)
    {
      hide RememberAll, Remember, Pick, PickAll, Keyed;
      r := [];
      NoneAsked(old(Seen()));
      assert es[..0] == [];
      for i := 0 to |es|
        invariant Valid() && fresh(states - old(states)) && old(states) + Elems(r) <= states
        invariant (forall s | s in r :: s.key == Text(s.expr.original)) && forall id | old(NoDims(id)) :: NoDims(id)
        invariant Seen() == RememberAll(old(Seen()), es[..i]) && Exprs(r) == PickAll(Seen(), es[..i])
      {
        var state := GetOrCreateExpr(es[i], false, Unshared);
        OneMoreAsked(old(Seen()), r, es[..i], es[i], state);
        assert es[..i + 1] == es[..i] + [es[i]];
        r := r + [state];
      }
      assert es[..|es|] == es;
    }

    /** Dimensions are evaluated for their own node only. */
    method CreateDims(ghost id: ID, forEach: seq<ForEach>) returns (r: seq<ExprState>)
      requires Valid() && NoDims(id)
      modifies this
      ensures (forall i | 0 <= i < |r| :: r[i].key == Dim(id, i)) && forall other | other != id && old(NoDims(other)) :: NoDims(other)
      ensures Valid() && fresh(states - old(states)) && old(states) + Elems(r) <= states
      ensures Seen() == old(Seen()) && |r| == |forEach| && forall i | 0 <= i < |r| :: r[i].expr == forEach[i].expr
    {
      r := [];
      for i := 0 to |forEach|
        invariant Valid() && fresh(states - old(states)) && old(states) + Elems(r) <= states
        invariant Seen() == old(Seen()) && |r| == i && forall j | 0 <= j < i :: r[j].expr == forEach[j].expr
        invariant (forall j | 0 <= j < i :: r[j].key == Dim(id, j)) && forall other | other != id && old(NoDims(other)) :: NoDims(other)
        invariant forall s | s in states && s.key.Dim? && s.key.id == id :: s.key.index < i
      {
        var state := GetOrCreateExpr(forEach[i].expr, true, Dim(id, i));
        r := r + [state];
      }
    }

    method GetOrCreateVars(vars: seq<Variable>) returns (r: seq<ExprState>)
      requires Valid()
      modifies this
      ensures Valid() && fresh(states - old(states)) && old(states) + Elems(r) <= states
      ensures Seen() == RememberAll(old(Seen()), SharedOf(vars)) && Fills(r, vars, Seen())
      ensures VarKeys(r) && forall id | old(NoDims(id)) :: NoDims(id)
    {
      hide VarKeys, Fills, SharedOf, RememberAll, Remember, Pick, PickVars, Keyed;
      r := [];
      NoVars(old(Seen()));
      NoKeys();
      assert vars[..0] == [];
      for i := 0 to |vars|
        invariant Valid() && fresh(states - old(states)) && old(states) + Elems(r) <= states
        invariant Seen() == RememberAll(old(Seen()), SharedOf(vars[..i])) && Fills(r, vars[..i], Seen())
        invariant VarKeys(r) && forall id | old(NoDims(id)) :: NoDims(id)
      {
        ghost var seen := Seen();
        var state := GetOrCreateExpr(vars[i].expr, vars[i].iteration, Unshared);
        OneVarMore(old(Seen()), r, vars[..i], vars[i], state);
        OneKeyMore(r, state);
        assert vars[..i + 1] == vars[..i] + [vars[i]];
        r := r + [state];
      }
      assert vars[..|vars|] == vars;
    }

    /** The states of a node are asked for in the order in which the source does. */
    method NewNode(id: ID, n: GraphNode, maxCollectionSize: int) returns (node: Node)
      requires Valid() && NoDims(id)
      modifies this
      ensures forall other | other != id && old(NoDims(other)) :: NoDims(other)
      ensures Valid() && fresh(states - old(states)) && old(states) + node.States() <= states
      ensures Seen() == RememberAll(old(Seen()), Asked(n)) && Made(node, id, n, Seen(), maxCollectionSize)
      ensures fresh(node) && node.deps == map[] && node.desired == None && node.observed == None
    {
      hide Fills, RememberAll, SharedOf, PickAll, PickVars;
      ghost var seen := Seen();
      var includeWhen := GetOrCreateAll(n.includeWhen);
      var readyWhen := GetOrCreateAll(n.readyWhen);
      var forEach := CreateDims(id, n.forEach);
      var vars := GetOrCreateVars(n.vars);
      AskedInOrder(seen, n);
      var names := seq(|n.forEach|, i requires 0 <= i < |n.forEach| => n.forEach[i].name);
      var paths := seq(|n.vars|, i requires 0 <= i < |n.vars| => n.vars[i].path);
      FillsPaired(vars, n.vars, Seen());
      node := new Node(id, n.kind, n.template, paths, vars, includeWhen, readyWhen, names, forEach, maxCollectionSize);
      FillsVars(node, n, Seen());
      assert node.Dims() == n.forEach;
    }
  }

  lemma NoneAsked(seen: Seen)
    ensures RememberAll(seen, []) == seen && Exprs([]) == PickAll(seen, [])
  {
  }

  lemma OneMoreAsked(start: Seen, states: seq<ExprState>, es: seq<Expr>, e: Expr, state: ExprState)
    requires Exprs(states) == PickAll(RememberAll(start, es), es)
    requires state.expr == Pick(Remember(RememberAll(start, es), e), e)
    ensures RememberAll(start, es + [e]) == Remember(RememberAll(start, es), e)
    ensures Exprs(states + [state]) == PickAll(RememberAll(start, es + [e]), es + [e])
  {
    assert (es + [e])[..|es|] == es && [e][..0] == [];
    RememberKeeps(start, es);
    PickStable(RememberAll(start, es), es, [e]);
    assert PickAll(RememberAll(start, es + [e]), es + [e])[..|es|] == PickAll(RememberAll(start, es + [e]), es);
  }

  /** The node has what the graph says about it, with shared expressions. */
  ghost predicate Made(node: Node, id: ID, n: GraphNode, seen: Seen, maxCollectionSize: int) {
    && node.id == id && node.kind == n.kind && node.template == n.template && node.Paired() && node.RightKeys()
    && node.Vars() == PickVars(seen, n.vars) && node.Dims() == n.forEach
    && Exprs(node.includeWhenExprs) == PickAll(seen, n.includeWhen)
    && Exprs(node.readyWhenExprs) == PickAll(seen, n.readyWhen)
    && node.maxCollectionSize == maxCollectionSize
  }

  lemma AskedInOrder(seen: Seen, n: GraphNode)
    ensures var a, b := RememberAll(seen, n.includeWhen), RememberAll(RememberAll(seen, n.includeWhen), n.readyWhen);
            && RememberAll(seen, Asked(n)) == RememberAll(b, SharedOf(n.vars))
            && PickAll(RememberAll(seen, Asked(n)), n.includeWhen) == PickAll(a, n.includeWhen)
            && PickAll(RememberAll(seen, Asked(n)), n.readyWhen) == PickAll(b, n.readyWhen)
  {
    var a, b := RememberAll(seen, n.includeWhen), RememberAll(RememberAll(seen, n.includeWhen), n.readyWhen);
    RememberMore(seen, n.includeWhen, n.readyWhen);
    RememberMore(seen, n.includeWhen + n.readyWhen, SharedOf(n.vars));
    RememberKeeps(seen, n.includeWhen);
    RememberKeeps(a, n.readyWhen);
    PickStable(a, n.includeWhen, n.readyWhen);
    PickStable(b, n.includeWhen, SharedOf(n.vars));
    PickStable(b, n.readyWhen, SharedOf(n.vars));
  }

  lemma FillsPaired(states: seq<ExprState>, vars: seq<Variable>, seen: Seen)
    requires Fills(states, vars, seen)
    ensures |states| == |vars|
  {
  }

  lemma FillsVars(node: Node, n: GraphNode, seen: Seen)
    requires Fills(node.templateExprs, n.vars, seen) && |node.templateVars| == |n.vars|
    requires forall i | 0 <= i < |n.vars| :: node.templateVars[i] == n.vars[i].path
    ensures |node.templateVars| == |node.templateExprs| && node.Vars() == PickVars(seen, n.vars)
  {
  }

  /** States created later do not change what a node has. */
  lemma MadeStable(node: Node, id: ID, n: GraphNode, seen: Seen, maxCollectionSize: int, more: seq<Expr>)
    requires Made(node, id, n, seen, maxCollectionSize)
    requires forall e | e in Asked(n) :: e.original in seen
    ensures Made(node, id, n, RememberAll(seen, more), maxCollectionSize)
  {
    PickStable(seen, n.includeWhen, more);
    PickStable(seen, n.readyWhen, more);
    PickVarsStable(seen, n.vars, more);
  }

  /** The states are those of the fields. */
  ghost predicate Fills(states: seq<ExprState>, vars: seq<Variable>, seen: Seen) {
    && |states| == |vars|
    && forall i | 0 <= i < |vars| :: Variable(vars[i].path, states[i].expr, states[i].iteration) == PickVars(seen, vars)[i]
  }

  /** The states have the keys under which their values are shared. */
  ghost predicate VarKeys(states: seq<ExprState>) {
    forall i | 0 <= i < |states| :: states[i].key == if states[i].iteration then Unshared else Text(states[i].expr.original)
  }

  lemma NoKeys()
    ensures VarKeys([])
  {
  }

  lemma OneKeyMore(states: seq<ExprState>, state: ExprState)
    requires VarKeys(states) && state.key == if state.iteration then Unshared else Text(state.expr.original)
    ensures VarKeys(states + [state])
  {
  }

  lemma NoVars(seen: Seen)
    ensures RememberAll(seen, SharedOf([])) == seen && Fills([], [], seen)
  {
  }

  lemma OneVarMore(start: Seen, states: seq<ExprState>, vars: seq<Variable>, v: Variable, state: ExprState)
    requires Fills(states, vars, RememberAll(start, SharedOf(vars))) && state.iteration == v.iteration
    requires var seen := RememberAll(start, SharedOf(vars));
             state.expr == if v.iteration then v.expr else Pick(Remember(seen, v.expr), v.expr)
    ensures var seen := RememberAll(start, SharedOf(vars));
            && RememberAll(start, SharedOf(vars + [v])) == (if v.iteration then seen else Remember(seen, v.expr))
            && Fills(states + [state], vars + [v], RememberAll(start, SharedOf(vars + [v])))
  {
    var seen, more := RememberAll(start, SharedOf(vars)), if v.iteration then [] else [v.expr];
    assert (vars + [v])[..|vars|] == vars;
    RememberMore(start, SharedOf(vars), more);
    assert more != [] ==> more[..0] == [];
    RememberKeeps(start, SharedOf(vars));
    PickVarsStable(seen, vars, more);
    var after := RememberAll(seen, more);
    assert PickVars(after, vars + [v])[..|vars|] == PickVars(after, vars);
  }

  // ---- The whole runtime. ----

  ghost predicate Blank(node: Node)
    reads node
  {
    node.deps == map[] && node.desired == None && node.observed == None
  }

  ghost predicate AllMade(g: ResourceGraph, nodes: map<ID, Node>, seen: Seen, maxCollectionSize: int)
    requires nodes.Keys <= g.nodes.Keys
  {
    forall id | id in nodes :: Made(nodes[id], id, g.nodes[id], seen, maxCollectionSize)
  }

  /** Nothing has happened to the nodes yet, and their states are among `states`. */
  ghost predicate AllBlank(nodes: map<ID, Node>, states: set<ExprState>)
    reads nodes.Values
  {
    forall id | id in nodes :: Blank(nodes[id]) && nodes[id].States() <= states
  }

  method CreateNodes(g: ResourceGraph, expressions: ExpressionsCache, maxCollectionSize: int)
    returns (nodes: map<ID, Node>)
    requires Distinct(g.order) && Elems(g.order) == g.nodes.Keys
    requires expressions.Valid() && expressions.Seen() == map[] && expressions.states == {}
    modifies expressions
    ensures expressions.Valid() && fresh(expressions.states) && fresh(nodes.Values)
    ensures nodes.Keys == g.nodes.Keys && expressions.Seen() == RememberAll(map[], AskedBefore(g, |g.order|))
    ensures AllMade(g, nodes, expressions.Seen(), maxCollectionSize) && AllBlank(nodes, expressions.states)
    ensures forall id | id !in g.nodes :: expressions.NoDims(id)
  {
    hide Made, Asked, RememberAll, AllMade, AllBlank, AskedBefore;
    nodes := map[];
    NothingRemembered(g, maxCollectionSize);
    for k := 0 to |g.order|
      invariant expressions.Valid() && fresh(expressions.states) && fresh(nodes.Values)
      invariant nodes.Keys == Elems(g.order[..k]) && expressions.Seen() == RememberAll(map[], AskedBefore(g, k))
      invariant forall id | id !in g.order[..k] :: expressions.NoDims(id)
      invariant AllMade(g, nodes, expressions.Seen(), maxCollectionSize) && AllBlank(nodes, expressions.states)
    {
      nodes := AddNode(g, k, nodes, expressions, maxCollectionSize);
    }
    assert g.order[..|g.order|] == g.order;
  }

  method AddNode(g: ResourceGraph, k: nat, nodes: map<ID, Node>, expressions: ExpressionsCache, maxCollectionSize: int)
    returns (more: map<ID, Node>)
    requires k < |g.order| && Elems(g.order) <= g.nodes.Keys && nodes.Keys == Elems(g.order[..k]) && g.order[k] !in g.order[..k]
    requires expressions.Valid() && expressions.Seen() == RememberAll(map[], AskedBefore(g, k))
    requires forall id | id !in g.order[..k] :: expressions.NoDims(id)
    requires AllMade(g, nodes, expressions.Seen(), maxCollectionSize) && AllBlank(nodes, expressions.states)
    modifies expressions
    ensures expressions.Valid() && fresh(expressions.states - old(expressions.states))
    ensures more.Keys == Elems(g.order[..k + 1]) && forall node | node in more.Values :: node in nodes.Values || fresh(node)
    ensures expressions.Seen() == RememberAll(map[], AskedBefore(g, k + 1))
    ensures forall id | id !in g.order[..k + 1] :: expressions.NoDims(id)
    ensures AllMade(g, more, expressions.Seen(), maxCollectionSize) && AllBlank(more, expressions.states)
  {
    hide Made, Asked, RememberAll, AllMade, AllBlank;
    ghost var seen, states := expressions.Seen(), expressions.states;
    var id := g.order[k];
    var node := expressions.NewNode(id, g.nodes[id], maxCollectionSize);
    RememberMore(map[], AskedBefore(g, k), Asked(g.nodes[id]));
    OneNodeMore(g, k, nodes, seen, node, maxCollectionSize);
    OneBlankMore(nodes, states, id, node, expressions.states);
    more := nodes[id := node];
    assert g.order[..k + 1] == g.order[..k] + [id];
  }

  lemma OneBlankMore(nodes: map<ID, Node>, states: set<ExprState>, id: ID, node: Node, more: set<ExprState>)
    requires AllBlank(nodes, states) && Blank(node) && states + node.States() <= more
    ensures AllBlank(nodes[id := node], more)
  {
  }

  lemma OneNodeMore(g: ResourceGraph, k: nat, nodes: map<ID, Node>, seen: Seen, node: Node, maxCollectionSize: int)
    requires k < |g.order| && Elems(g.order) <= g.nodes.Keys && nodes.Keys == Elems(g.order[..k])
    requires seen == RememberAll(map[], AskedBefore(g, k)) && AllMade(g, nodes, seen, maxCollectionSize)
    requires var asked := Asked(g.nodes[g.order[k]]);
             Made(node, g.order[k], g.nodes[g.order[k]], RememberAll(seen, asked), maxCollectionSize)
    ensures nodes[g.order[k] := node].Keys == Elems(g.order[..k + 1])
    ensures var asked := Asked(g.nodes[g.order[k]]);
            AllMade(g, nodes[g.order[k] := node], RememberAll(seen, asked), maxCollectionSize)
  {
    hide Made, Asked, RememberAll;
    var asked := Asked(g.nodes[g.order[k]]);
    forall id | id in nodes ensures Made(nodes[id], id, g.nodes[id], RememberAll(seen, asked), maxCollectionSize) {
      var i :| 0 <= i < k && g.order[i] == id;
      AskedRemembered(g, k, i);
      MadeStable(nodes[id], id, g.nodes[id], seen, maxCollectionSize, asked);
    }
  }

  lemma NothingRemembered(g: ResourceGraph, maxCollectionSize: int)
    requires Elems(g.order) <= g.nodes.Keys
    ensures RememberAll(map[], AskedBefore(g, 0)) == map[]
    ensures AllMade(g, map[], map[], maxCollectionSize) && AllBlank(map[], {})
  {
  }

  lemma {:induction false} AskedRemembered(g: ResourceGraph, k: nat, i: nat)
    requires i < k <= |g.order| && Elems(g.order) <= g.nodes.Keys
    ensures forall e | e in Asked(g.nodes[g.order[i]]) :: e.original in RememberAll(map[], AskedBefore(g, k))
  {
    hide Asked;
    RememberKeeps(map[], AskedBefore(g, k));
    if i < k - 1 {
      AskedRemembered(g, k - 1, i);
      RememberMore(map[], AskedBefore(g, k - 1), Asked(g.nodes[g.order[k - 1]]));
      RememberKeeps(RememberAll(map[], AskedBefore(g, k - 1)), Asked(g.nodes[g.order[k - 1]]));
    }
  }

  function Those(all: map<ID, Node>, ids: set<ID>): map<ID, Node> {
    map d | d in all && d in ids :: all[d]
  }

  lemma OneLinkMore(before: map<ID, Node>, all: map<ID, Node>, ds: seq<ID>, i: nat)
    requires i < |ds|
    ensures var was := before + Those(all, Elems(ds[..i]));
            before + Those(all, Elems(ds[..i + 1])) == if ds[i] in all then was[ds[i] := all[ds[i]]] else was
  {
  }

  /** Dependencies that are not nodes are passed over. */
  method Link(node: Node, dependencies: seq<ID>, nodes: map<ID, Node>)
    modifies node`deps
    ensures node.deps == old(node.deps) + Those(nodes, Elems(dependencies))
  {
    hide Those;
    ghost var before := node.deps;
    assert Those(nodes, Elems(dependencies[..0])) == map[] by {
      NoLinks(nodes, dependencies);
    }
    for i := 0 to |dependencies|
      invariant node.deps == before + Those(nodes, Elems(dependencies[..i]))
    {
      OneLinkMore(before, nodes, dependencies, i);
      if dependencies[i] in nodes {
        node.deps := node.deps[dependencies[i] := nodes[dependencies[i]]];
      }
    }
    assert dependencies[..|dependencies|] == dependencies;
  }

  lemma NoLinks(nodes: map<ID, Node>, ds: seq<ID>)
    ensures Those(nodes, Elems(ds[..0])) == map[]
  {
  }

  lemma LinksOf(g: ResourceGraph, nodes: map<ID, Node>, instance: Node, n: GraphNode)
    requires nodes.Keys == g.nodes.Keys && INSTANCE !in nodes
    ensures (if n.kind.Instance? then map[] else map[INSTANCE := instance]) + Those(nodes, Elems(n.dependencies)) ==
            Those(nodes[INSTANCE := instance], Linked(g, n))
  {
  }

  /** Every node is linked to the instance, and the instance to the nodes that its status refers to. */
  method LinkAll(g: ResourceGraph, nodes: map<ID, Node>, instance: Node)
    requires Distinct(g.order) && Elems(g.order) == g.nodes.Keys == nodes.Keys
    requires INSTANCE !in nodes && (forall id | id in nodes :: nodes[id].id == id) && instance.id == INSTANCE
    requires (forall id | id in nodes :: nodes[id].deps == map[]) && instance.deps == map[]
    requires forall id | id in nodes :: !g.nodes[id].kind.Instance?
    modifies nodes.Values`deps, instance`deps
    ensures var all := nodes[INSTANCE := instance];
            && (forall id | id in nodes :: nodes[id].deps == Those(all, Linked(g, g.nodes[id])))
            && instance.deps == Those(all, Linked(g, InstanceOf(g)))
  {
    hide Those, Linked;
    ghost var all := nodes[INSTANCE := instance];
    for k := 0 to |g.order|
      invariant instance.deps == map[]
      invariant forall id | id in nodes ::
        nodes[id].deps == if id in g.order[..k] then Those(all, Linked(g, g.nodes[id])) else map[]
    {
      var id := g.order[k];
      var node := nodes[id];
      LinksOf(g, nodes, instance, g.nodes[id]);
      node.deps := node.deps[INSTANCE := instance];
      Link(node, g.nodes[id].dependencies, nodes);
      assert forall other | other in nodes && other != id :: nodes[other] != node;
    }
    assert g.order[..|g.order|] == g.order;
    LinksOf(g, nodes, instance, InstanceOf(g));
    Link(instance, g.instance.dependencies, nodes);
  }

  /** What a reconciliation of the graph works on before anything but the instance is observed. */
  ghost function WorldOf(g: ResourceGraph, instance: Json, eval: Oracle, maxCollectionSize: int): World
    requires Elems(g.order) <= g.nodes.Keys
  {
    World(WiredSpecs(g, SeenIn(g)), map[INSTANCE := [instance]], eval, maxCollectionSize)
  }

  /** Positions, the instance before all nodes. */
  function Ranks(g: ResourceGraph): map<ID, nat> {
    (map id | id in g.nodes :: Position(g.order, id) + 1)[INSTANCE := 0]
  }

  function Position(order: seq<ID>, id: ID): (k: nat)
    ensures k <= |order| && (k < |order| ==> order[k] == id)
    ensures id in order ==> k < |order|
  {
    if order == [] || order[0] == id then 0 else 1 + Position(order[1..], id)
  }

  /** The dependencies of a node are placed before it. */
  lemma LinkedBefore(g: ResourceGraph, i: nat, d: ID)
    requires Built(g) && i < |g.order| && d in Linked(g, g.nodes[g.order[i]]) && d != INSTANCE
    ensures d in g.order[..i] && Position(g.order, d) < i
  {
    assert d in DependencyGraph(g)[g.order[i]];
    PositionUnique(g.order, d);
  }

  lemma {:induction false} PositionUnique(order: seq<ID>, id: ID)
    requires Distinct(order)
    ensures forall i | 0 <= i < |order| && order[i] == id :: Position(order, id) == i
  {
    if order != [] {
      PositionUnique(order[1..], id);
    }
  }

  lemma SpecsKnown(g: ResourceGraph, instance: Json, eval: Oracle, maxCollectionSize: int)
    requires Built(g)
    ensures var w := WorldOf(g, instance, eval, maxCollectionSize);
            && w.specs.Keys == g.nodes.Keys + {INSTANCE} && w.observed == map[INSTANCE := [instance]] && w.eval == eval
            && (forall id | id in g.nodes :: w.specs[id].kind == g.nodes[id].kind && w.specs[id].deps == Linked(g, g.nodes[id]))
            && w.specs[INSTANCE].kind.Instance? && w.specs[INSTANCE].deps <= g.nodes.Keys
            && IgnoreGraph(w).Keys == w.specs.Keys && IgnoreGraph(w)[INSTANCE] == {}
            && forall id | id in g.nodes :: IgnoreGraph(w)[id] == Linked(g, g.nodes[id])
  {
    hide SeenIn, PickAll, PickVars, IsTopological;
  }

  /** A graph that the builder accepts makes a well-formed world. */
  lemma WorldWellWired(g: ResourceGraph, instance: Json, eval: Oracle, maxCollectionSize: int)
    requires Built(g)
    ensures var w := WorldOf(g, instance, eval, maxCollectionSize); WellWired(w) && w.specs.Keys == Ranks(g).Keys
  {
    hide WorldOf, IsTopological, WiredSpecs, Linked, IgnoreGraph;
    LinkedAreNodes(g);
    SpecsKnown(g, instance, eval, maxCollectionSize);
  }

  lemma LinkedAreNodes(g: ResourceGraph)
    ensures forall n :: Linked(g, n) <= g.nodes.Keys + {INSTANCE}
  {
  }

  lemma WorldIDs(g: ResourceGraph, instance: Json, eval: Oracle, maxCollectionSize: int)
    requires Built(g)
    ensures ValidIDs(WorldOf(g, instance, eval, maxCollectionSize))
  {
    hide WorldOf, IsTopological, WiredSpecs, Linked, IgnoreGraph, Naming.ValidID;
    SpecsKnown(g, instance, eval, maxCollectionSize);
  }

  /** The instance can be placed before everything that the builder has ordered. */
  lemma WorldOrdered(g: ResourceGraph, instance: Json, eval: Oracle, maxCollectionSize: int)
    requires Built(g)
    ensures Ordered(WorldOf(g, instance, eval, maxCollectionSize), [INSTANCE] + g.order)
  {
    hide WorldOf, Linked, IgnoreGraph, DepsFirst;
    SpecsKnown(g, instance, eval, maxCollectionSize);
    var h := IgnoreGraph(WorldOf(g, instance, eval, maxCollectionSize));
    forall i, d | 0 <= i < |g.order| && d in h[g.order[i]] && d != INSTANCE ensures d in g.order[..i] {
      LinkedBefore(g, i, d);
    }
    OrderInFront(h, INSTANCE, g.order);
  }

  lemma OrderInFront(h: Graph, x: ID, s: seq<ID>)
    requires Distinct(s) && x !in s && h.Keys == Elems(s) + {x} && h[x] == {}
    requires forall i, d | 0 <= i < |s| && d in h[s[i]] && d != x :: d in s[..i]
    ensures IsTopological(h, [x] + s)
  {
    InFront(x, s);
    var all := [x] + s;
    forall i, d | 0 <= i < |all| && d in h[all[i]] ensures d in all[..i] {
      assert i > 0;
    }
  }

  lemma InFront(x: ID, s: seq<ID>)
    requires Distinct(s) && x !in s
    ensures Distinct([x] + s) && Elems([x] + s) == Elems(s) + {x}
    ensures forall i | 0 < i <= |s| :: ([x] + s)[..i] == [x] + s[..i - 1] && ([x] + s)[i] == s[i - 1] && s[i - 1] in Elems(s)
  {
    forall y ensures y in Elems([x] + s) <==> y in Elems(s) + {x} {
      if y in s {
        var k :| 0 <= k < |s| && s[k] == y;
        assert ([x] + s)[k + 1] == y;
      } else if y == x {
        assert ([x] + s)[0] == y;
      }
    }
  }

  lemma RanksFall(g: ResourceGraph, id: ID, d: ID)
    requires Built(g) && id in g.nodes && d in Linked(g, g.nodes[id])
    ensures Ranks(g)[d] < Ranks(g)[id]
  {
    assert id in Elems(g.order);
    if d != INSTANCE {
      PositionUnique(g.order, id);
      LinkedBefore(g, Position(g.order, id), d);
    }
  }

  ghost function NetOf(g: ResourceGraph, instance: Json, eval: Oracle, maxCollectionSize: int,
                       all: map<ID, Node>, states: set<ExprState>): Net
    requires Elems(g.order) <= g.nodes.Keys
  {
    Net(WorldOf(g, instance, eval, maxCollectionSize), all, states, Ranks(g))
  }

  function NodeAt(g: ResourceGraph, id: ID): GraphNode
    requires id in g.nodes || id == INSTANCE
  {
    if id in g.nodes then g.nodes[id] else InstanceOf(g)
  }

  /** The node is linked and, if it is the instance, observed, but nothing else has happened. */
  ghost predicate Placed(g: ResourceGraph, instance: Json, maxCollectionSize: int, all: map<ID, Node>, states: set<ExprState>, id: ID)
    requires Elems(g.order) <= g.nodes.Keys && (id in g.nodes || id == INSTANCE) && id in all
    reads all[id]
  {
    && Made(all[id], id, NodeAt(g, id), SeenIn(g), maxCollectionSize) && all[id].States() <= states
    && all[id].deps == Those(all, Linked(g, NodeAt(g, id))) && all[id].desired == None
    && all[id].observed == if id == INSTANCE then Some([instance]) else None
  }

  ghost predicate Assembled(g: ResourceGraph, instance: Json, maxCollectionSize: int, all: map<ID, Node>, states: set<ExprState>)
    requires Elems(g.order) <= g.nodes.Keys
    reads all.Values
  {
    all.Keys == g.nodes.Keys + {INSTANCE} && forall id | id in all :: Placed(g, instance, maxCollectionSize, all, states, id)
  }

  lemma SpecAt(g: ResourceGraph, instance: Json, eval: Oracle, maxCollectionSize: int, id: ID)
    requires Built(g) && (id in g.nodes || id == INSTANCE)
    ensures var w := WorldOf(g, instance, eval, maxCollectionSize);
            && id in w.specs && w.specs[id] == WiredSpec(g, SeenIn(g), NodeAt(g, id))
            && w.observed == map[INSTANCE := [instance]] && w.maxCollectionSize == maxCollectionSize
  {
    hide SeenIn, WiredSpec, IsTopological;
  }

  lemma ThoseKeys(all: map<ID, Node>, ids: set<ID>)
    requires ids <= all.Keys
    ensures Those(all, ids).Keys == ids && forall d | d in ids :: Those(all, ids)[d] == all[d]
  {
  }

  lemma PlacedShows(g: ResourceGraph, instance: Json, eval: Oracle, maxCollectionSize: int,
                    all: map<ID, Node>, states: set<ExprState>, id: ID)
    requires Built(g) && all.Keys == g.nodes.Keys + {INSTANCE} && id in all
    requires Placed(g, instance, maxCollectionSize, all, states, id)
    ensures all[id].id == id && all[id].Shows(NetOf(g, instance, eval, maxCollectionSize, all, states))
  {
    hide SeenIn, WiredSpecs, Linked, Those, Built;
    SpecAt(g, instance, eval, maxCollectionSize, id);
    LinkedAreNodes(g);
    ThoseKeys(all, Linked(g, NodeAt(g, id)));
  }

  lemma BuiltKeys(g: ResourceGraph)
    requires Built(g)
    ensures Elems(g.order) == g.nodes.Keys && Distinct(g.order)
  {
  }

  lemma AssembledWired(g: ResourceGraph, instance: Json, eval: Oracle, maxCollectionSize: int,
                       all: map<ID, Node>, states: set<ExprState>)
    requires Built(g) && Assembled(g, instance, maxCollectionSize, all, states)
    requires Keyed(states) && forall s | s in states :: s.eval == eval && !s.resolved
    ensures var net := NetOf(g, instance, eval, maxCollectionSize, all, states);
            Wired(net) && Holding(net, map[])
  {
    hide Placed, SeenIn, WorldOf, WellWired, Node.Shows, Linked, Ranks, IsTopological;
    BuiltKeys(g);
    LinkedAreNodes(g);
    WorldWellWired(g, instance, eval, maxCollectionSize);
    SpecsKnown(g, instance, eval, maxCollectionSize);
    forall id | id in all
      ensures all[id].id == id && all[id].Shows(NetOf(g, instance, eval, maxCollectionSize, all, states))
      ensures all[id].desired == None
    {
      PlacedShows(g, instance, eval, maxCollectionSize, all, states, id);
      PlacedBlank(g, instance, maxCollectionSize, all, states, id);
    }
    forall id, d | id in g.nodes && d in Linked(g, g.nodes[id]) ensures Ranks(g)[d] < Ranks(g)[id] {
      RanksFall(g, id, d);
    }
  }

  lemma PlacedBlank(g: ResourceGraph, instance: Json, maxCollectionSize: int, all: map<ID, Node>, states: set<ExprState>, id: ID)
    requires Elems(g.order) <= g.nodes.Keys && (id in g.nodes || id == INSTANCE) && id in all
    requires Placed(g, instance, maxCollectionSize, all, states, id)
    ensures all[id].desired == None
  {
  }

  lemma InstanceAsked(g: ResourceGraph)
    requires Elems(g.order) <= g.nodes.Keys
    ensures SeenIn(g) == RememberAll(RememberAll(map[], AskedBefore(g, |g.order|)), Asked(InstanceOf(g)))
  {
    RememberMore(map[], AskedBefore(g, |g.order|), SharedOf(g.instance.vars));
    assert Asked(InstanceOf(g)) == SharedOf(g.instance.vars);
  }

  lemma AllMadeInTheEnd(g: ResourceGraph, nodes: map<ID, Node>, maxCollectionSize: int)
    requires Elems(g.order) == g.nodes.Keys == nodes.Keys
    requires AllMade(g, nodes, RememberAll(map[], AskedBefore(g, |g.order|)), maxCollectionSize)
    ensures AllMade(g, nodes, SeenIn(g), maxCollectionSize)
  {
    hide Made, RememberAll, AskedBefore, Asked, SeenIn;
    InstanceAsked(g);
    forall id | id in nodes ensures Made(nodes[id], id, g.nodes[id], SeenIn(g), maxCollectionSize) {
      assert id in Elems(g.order);
      var i :| 0 <= i < |g.order| && g.order[i] == id;
      AskedRemembered(g, |g.order|, i);
      MadeStable(nodes[id], id, g.nodes[id], RememberAll(map[], AskedBefore(g, |g.order|)), maxCollectionSize, Asked(InstanceOf(g)));
    }
  }

  /** All nodes and the instance; what they have in common are the states. */
  method CreateAll(g: ResourceGraph, expressions: ExpressionsCache, maxCollectionSize: int)
    returns (nodes: map<ID, Node>, instance: Node)
    requires Built(g) && expressions.Valid() && expressions.Seen() == map[] && expressions.states == {}
    modifies expressions
    ensures expressions.Valid() && fresh(expressions.states) && fresh(nodes.Values) && fresh(instance)
    ensures nodes.Keys == g.nodes.Keys
    ensures AllMade(g, nodes, SeenIn(g), maxCollectionSize) && AllBlank(nodes, expressions.states)
    ensures Made(instance, INSTANCE, InstanceOf(g), SeenIn(g), maxCollectionSize)
    ensures Blank(instance) && instance.States() <= expressions.states
  {
    hide Made, RememberAll, AskedBefore, Asked, AllMade, AllBlank, SeenIn, DepsFirst;
    nodes := CreateNodes(g, expressions, maxCollectionSize);
    ghost var states := expressions.states;
    InstanceAsked(g);
    AllMadeInTheEnd(g, nodes, maxCollectionSize);
    instance := expressions.NewNode(INSTANCE, InstanceOf(g), maxCollectionSize);
    MoreStates(nodes, states, expressions.states);
  }

  lemma MoreStates(nodes: map<ID, Node>, states: set<ExprState>, more: set<ExprState>)
    requires AllBlank(nodes, states) && states <= more
    ensures AllBlank(nodes, more)
  {
  }

  lemma AllPlaced(g: ResourceGraph, instance: Json, maxCollectionSize: int, nodes: map<ID, Node>, inst: Node, states: set<ExprState>)
    requires Built(g) && nodes.Keys == g.nodes.Keys
    requires AllMade(g, nodes, SeenIn(g), maxCollectionSize)
    requires Made(inst, INSTANCE, InstanceOf(g), SeenIn(g), maxCollectionSize)
    requires forall id | id in nodes :: nodes[id].desired == nodes[id].observed == None && nodes[id].States() <= states
    requires inst.desired == None && inst.observed == Some([instance]) && inst.States() <= states
    requires var all := nodes[INSTANCE := inst];
             && (forall id | id in nodes :: nodes[id].deps == Those(all, Linked(g, g.nodes[id])))
             && inst.deps == Those(all, Linked(g, InstanceOf(g)))
    ensures Assembled(g, instance, maxCollectionSize, nodes[INSTANCE := inst], states)
  {
    hide Made, SeenIn, Linked, Those, IsTopological;
  }

  lemma NewNodes(g: ResourceGraph, nodes: map<ID, Node>, inst: Node, maxCollectionSize: int, states: set<ExprState>)
    requires Built(g) && nodes.Keys == g.nodes.Keys
    requires AllMade(g, nodes, SeenIn(g), maxCollectionSize) && AllBlank(nodes, states)
    requires Made(inst, INSTANCE, InstanceOf(g), SeenIn(g), maxCollectionSize) && Blank(inst)
    ensures forall id | id in nodes ::
              && nodes[id].id == id && nodes[id].deps == map[] && nodes[id].desired == nodes[id].observed == None
              && nodes[id].States() <= states
    ensures inst.id == INSTANCE && inst.deps == map[] && inst.desired == None
  {
    hide SeenIn, IsTopological, PickVars, PickAll;
    BuiltKeys(g);
    forall id | id in nodes
      ensures nodes[id].id == id && nodes[id].deps == map[] && nodes[id].desired == nodes[id].observed == None
      ensures nodes[id].States() <= states
    {
      assert Made(nodes[id], id, g.nodes[id], SeenIn(g), maxCollectionSize) && Blank(nodes[id]);
    }
  }

  method Assemble(g: ResourceGraph, instance: Json, expressions: ExpressionsCache, maxCollectionSize: int)
    returns (nodes: map<ID, Node>, inst: Node)
    requires Built(g) && expressions.Valid() && expressions.Seen() == map[] && expressions.states == {}
    modifies expressions
    ensures expressions.Valid() && fresh(expressions.states) && fresh(nodes.Values) && fresh(nodes[INSTANCE := inst].Values)
    ensures nodes.Keys == g.nodes.Keys
    ensures Assembled(g, instance, maxCollectionSize, nodes[INSTANCE := inst], expressions.states)
  {
    hide SeenIn, Linked, Those, Assembled, IsTopological, WiredSpec, AskedBefore, AllMade, Made, AllBlank, Blank;
    BuiltKeys(g);
    nodes, inst := CreateAll(g, expressions, maxCollectionSize);
    NewNodes(g, nodes, inst, maxCollectionSize, expressions.states);
    inst.observed := Some([instance]);
    LinkAll(g, nodes, inst);
    AllPlaced(g, instance, maxCollectionSize, nodes, inst, expressions.states);
  }

  /** A runtime for the graph: what the graph says is what the nodes and their shared states are. */
  method FromGraph(g: ResourceGraph, instance: Json, eval: Oracle, maxCollectionSize: int) returns (rt: Runtime)
    requires Built(g)
    ensures rt.Valid(map[]) && rt.net.w == WorldOf(g, instance, eval, maxCollectionSize)
    ensures fresh(rt) && fresh(rt.nodes.Values) && fresh(rt.net.nodes.Values) && fresh(rt.net.states)
    ensures rt.order == g.order && rt.nodes.Keys == g.nodes.Keys
    ensures Unevaluated(rt.net.states) && rt.net.rank == Ranks(g)
  {
    hide Assembled, Ordered, IsTopological, Wired, Holding, WorldOf, ValidIDs;
    BuiltKeys(g);
    var expressions := new ExpressionsCache(eval);
    var nodes, inst := Assemble(g, instance, expressions, maxCollectionSize);
    ghost var all := nodes[INSTANCE := inst];
    ghost var net := NetOf(g, instance, eval, maxCollectionSize, all, expressions.states);
    AssembledWired(g, instance, eval, maxCollectionSize, all, expressions.states);
    WorldOrdered(g, instance, eval, maxCollectionSize);
    WorldIDs(g, instance, eval, maxCollectionSize);
    rt := new Runtime(g.order, nodes, inst, net);
  }
}
