/** The resources that a run resolves and emits, and why they do not depend on the order of the run. */
module Reconcile {
  import opened Sets
  import opened Trees
  import opened Graphs
  import opened Resolver
  import opened Objects
  import opened Expansion
  import opened World
  import Naming

  // ---- Resolving one node. ----

  function Originals(vars: seq<Variable>, iteration: bool): set<string> {
    set v | v in vars && v.iteration == iteration :: v.expr.original
  }

  predicate AllValues(eval: Oracle, exprs: set<string>, ctx: Ctx) {
    forall e | e in exprs :: eval(e, ctx).Value?
  }

  function Values(eval: Oracle, exprs: set<string>, ctx: Ctx): Data
    requires AllValues(eval, exprs, ctx)
  {
    map e | e in exprs :: eval(e, ctx).v
  }

  /** The values of all expressions that do not depend on forEach variables. */
  function BaseData(w: World, vars: seq<Variable>): Option<Data>
    requires WellWired(w)
  {
    var exprs := Originals(vars, false);
    if AllValues(w.eval, exprs, FullContext(w)) then Some(Values(w.eval, exprs, FullContext(w))) else None
  }

  /** Identifiers that iteration expressions refer to. */
  function IterationRefs(vars: seq<Variable>): set<string> {
    set v, r | v in vars && v.iteration && r in v.expr.refs :: r
  }

  function IterationContext(w: World, id: ID, binding: Binding): Ctx
    requires WellWired(w) && id in w.specs
  {
    NodeContext(w, id, IterationRefs(w.specs[id].vars)) + binding
  }

  /** The values for one item of a collection. */
  function ItemData(w: World, id: ID, base: Data, binding: Binding): Option<Data>
    requires WellWired(w) && id in w.specs
  {
    var exprs, ctx := Originals(w.specs[id].vars, true), IterationContext(w, id, binding);
    if AllValues(w.eval, exprs, ctx) then Some(base + Values(w.eval, exprs, ctx)) else None
  }

  function Descriptors(vars: seq<Variable>): (r: seq<Descriptor>)
    ensures |r| == |vars|
  {
    seq(|vars|, i requires 0 <= i < |vars| => Descriptor(vars[i].path, vars[i].expr.original))
  }

  /** The template with all its expressions resolved; none if a path or a value is missing. */
  function Rendered(template: Json, ds: seq<Descriptor>, data: Data): Option<Json> {
    if forall i | 0 <= i < |ds| :: Outcome(AppliedAll(template, ds[..i], data), ds[i], data).Resolved?
    then Some(Clean(AppliedAll(template, ds, data))) else None
  }

  datatype Dimensions = Unavailable | Empty | Available(dims: seq<Dimension>)

  /** The dimensions one after the other; an empty one ends the evaluation. */
  function DimensionsOf(w: World, forEach: seq<ForEach>): Dimensions
    requires WellWired(w)
  {
    if forEach == [] then Available([])
    else match Fresh(w, forEach[0].expr)
      case Value(Arr(values)) =>
        if values == [] then Empty
        else After([Dimension(forEach[0].name, values)], DimensionsOf(w, forEach[1..]))
      case _ => Unavailable
  }

  /** `dims` before the dimensions that `r` has. */
  function After(dims: seq<Dimension>, r: Dimensions): Dimensions {
    match r case Available(more) => Available(dims + more) case other => other
  }

  lemma AfterTwice(a: seq<Dimension>, b: seq<Dimension>, r: Dimensions)
    ensures After(a, After(b, r)) == After(a + b, r) && After([], r) == r
  {
    if r.Available? {
      assert a + (b + r.dims) == a + b + r.dims;
      assert [] + r.dims == r.dims;
    }
  }

  lemma {:induction false} DimensionsNotEmpty(w: World, forEach: seq<ForEach>)
    requires WellWired(w) && DimensionsOf(w, forEach).Available?
    ensures |DimensionsOf(w, forEach).dims| == |forEach|
    ensures NoneEmpty(Lengths(DimensionsOf(w, forEach).dims))
  {
    if forEach != [] {
      DimensionsNotEmpty(w, forEach[1..]);
      var dims := DimensionsOf(w, forEach).dims;
      assert dims[1..] == DimensionsOf(w, forEach[1..]).dims;
      forall i | 0 <= i < |dims| ensures Lengths(dims)[i] > 0 {
        if i > 0 {
          assert Lengths(dims[1..])[i - 1] > 0;
        }
      }
    }
  }

  /** One binding of the forEach variables for every item. */
  function Bindings(w: World, id: ID): Option<seq<Binding>>
    requires WellWired(w) && id in w.specs
  {
    match DimensionsOf(w, w.specs[id].forEach)
    case Unavailable => None
    case Empty => Some([])
    case Available(dims) =>
      DimensionsNotEmpty(w, w.specs[id].forEach);
      if dims == [] then Some([])
      else if Product(Lengths(dims)) > w.maxCollectionSize then None
      else Some(seq(Product(Lengths(dims)), k requires 0 <= k < Product(Lengths(dims)) => Combination(dims, k)))
  }

  function ItemOf(w: World, id: ID, base: Data, binding: Binding, index: nat): Option<Json>
    requires WellWired(w) && id in w.specs
  {
    match ItemData(w, id, base, binding)
    case None => None
    case Some(data) =>
      match Rendered(w.specs[id].template, Descriptors(w.specs[id].vars), data)
      case None => None
      case Some(obj) => Some(WithCollectionIndex(obj, index))
  }

  function ItemsOf(w: World, id: ID, base: Data, bindings: seq<Binding>): Option<seq<Json>>
    requires WellWired(w) && id in w.specs
  {
    if bindings == [] then Some([])
    else
      var n := |bindings| - 1;
      match (ItemsOf(w, id, base, bindings[..n]), ItemOf(w, id, base, bindings[n], n))
      case (Some(items), Some(item)) => Some(items + [item])
      case _ => None
  }

  lemma {:induction false} ItemsOfPrefix(w: World, id: ID, base: Data, bindings: seq<Binding>, k: nat)
    requires WellWired(w) && id in w.specs && k < |bindings| && ItemsOf(w, id, base, bindings).Some?
    ensures ItemsOf(w, id, base, bindings[..k]).Some? && ItemOf(w, id, base, bindings[k], k).Some?
    decreases |bindings|
  {
    hide ItemOf;
    var n := |bindings| - 1;
    if k < n {
      ItemsOfPrefix(w, id, base, bindings[..n], k);
      assert bindings[..n][..k] == bindings[..k];
    }
  }

  /** One object for every binding, in their order. */
  lemma {:induction false} ItemsOfEach(w: World, id: ID, base: Data, bindings: seq<Binding>)
    requires WellWired(w) && id in w.specs && ItemsOf(w, id, base, bindings).Some?
    ensures var items := ItemsOf(w, id, base, bindings).value;
            && |items| == |bindings|
            && forall k | 0 <= k < |items| :: ItemOf(w, id, base, bindings[k], k) == Some(items[k])
    decreases |bindings|
  {
    hide ItemOf;
    if bindings != [] {
      ItemsOfEach(w, id, base, bindings[..|bindings| - 1]);
    }
  }

  /** The objects that a node wants, if all that they are made of is there. */
  function ObjectsOf(w: World, id: ID): Option<seq<Json>>
    requires WellWired(w) && id in w.specs
  {
    var spec := w.specs[id];
    match BaseData(w, spec.vars)
    case None => None
    case Some(base) =>
      if spec.kind.Collection? then
        match Bindings(w, id)
        case None => None
        case Some(bindings) =>
          match ItemsOf(w, id, base, bindings)
          case Some(items) => if DistinctIdentities(items) then Some(items) else None
          case None => None
      else
        match Rendered(spec.template, Descriptors(spec.vars), base)
        case Some(obj) => Some([obj])
        case None => None
  }

  // ---- One step of the run. ----

  /** Nodes whose resources the run emits. */
  predicate Managed(w: World, id: ID) {
    id in w.specs && (w.specs[id].kind.Resource? || w.specs[id].kind.Collection?)
  }

  predicate DependenciesReady(w: World, desired: Desired, id: ID)
    requires WellWired(w) && id in w.specs
  {
    forall d | d in w.specs[id].deps && d != INSTANCE :: ObservedReady(w, desired, d)
  }

  /** What the run resolves for a node once everything the node depends on has been decided. */
  ghost function Step(w: World, desired: Desired, id: ID): Option<seq<Json>>
    requires WellWired(w) && id in w.specs
  {
    if Included(w, desired, id) && DependenciesReady(w, desired, id) then ObjectsOf(w, id) else None
  }

  /** Every node is resolved if and only if, and as, it should be given the others. */
  ghost predicate Solves(w: World, desired: Desired)
    requires WellWired(w)
  {
    forall id | Managed(w, id) ::
      if id in desired then Step(w, desired, id) == Some(desired[id]) else Step(w, desired, id) == None
  }

  predicate SameOn(w: World, ids: set<ID>, a: Desired, b: Desired) {
    forall id | id in ids && Managed(w, id) :: (id in a <==> id in b) && (id in a ==> a[id] == b[id])
  }

  /** Nothing in `ids` depends on anything outside. */
  predicate Downward(w: World, ids: set<ID>) {
    forall id | id in ids && id in w.specs :: !w.specs[id].kind.Instance? ==> w.specs[id].deps <= ids
  }

  lemma {:induction false} ReachesWithin(w: World, ids: set<ID>, a: ID, m: ID, p: seq<ID>)
    requires Downward(w, ids) && a in ids && IsPathBetween(IgnoreGraph(w), p, a, m)
    ensures m in ids
    decreases |p|
  {
    if |p| > 1 {
      assert Edge(IgnoreGraph(w), p[0], p[1]);
      SubPath(IgnoreGraph(w), p, 1, |p|);
      ReachesWithin(w, ids, p[1], m, p[1..]);
    }
  }

  lemma ReadyLocal(w: World, ids: set<ID>, a: Desired, b: Desired, id: ID)
    requires WellWired(w) && id in w.specs && id in ids && SameOn(w, ids, a, b)
    ensures ObservedReady(w, a, id) == ObservedReady(w, b, id)
  {
    assert w.specs[id].kind.Collection? ==> Managed(w, id);
  }

  lemma ConditionsLocal(w: World, ids: set<ID>, a: Desired, b: Desired, id: ID)
    requires WellWired(w) && id in w.specs && w.specs[id].deps <= ids && SameOn(w, ids, a, b)
    ensures OwnConditions(w, a, id) == OwnConditions(w, b, id)
  {
    hide ObservedReady;
    forall r | r in w.specs[id].deps ensures ObservedReady(w, a, r) == ObservedReady(w, b, r) {
      ReadyLocal(w, ids, a, b, r);
    }
  }

  /** What is decided for a node depends on the nodes below it only. */
  lemma StepLocal(w: World, ids: set<ID>, a: Desired, b: Desired, id: ID)
    requires WellWired(w) && Managed(w, id) && Downward(w, ids) && w.specs[id].deps <= ids && SameOn(w, ids, a, b)
    ensures Step(w, a, id) == Step(w, b, id)
  {
    hide ObservedReady, OwnConditions, ObjectsOf;
    forall m | m in w.specs && Reaches(IgnoreGraph(w), id, m) && !w.specs[m].kind.Instance?
      ensures OwnConditions(w, a, m) == OwnConditions(w, b, m)
    {
      if m != id {
        var d := ReachesFirst(IgnoreGraph(w), id, m);
        var p :| IsPathBetween(IgnoreGraph(w), p, d, m);
        ReachesWithin(w, ids, d, m, p);
      }
      ConditionsLocal(w, ids, a, b, m);
    }
    InstanceConditions(w, a);
    InstanceConditions(w, b);
    forall d | d in w.specs[id].deps ensures ObservedReady(w, a, d) == ObservedReady(w, b, d) {
      ReadyLocal(w, ids, a, b, d);
    }
  }

  lemma InstanceConditions(w: World, desired: Desired)
    requires WellWired(w)
    ensures forall id | id in w.specs && w.specs[id].kind.Instance? :: OwnConditions(w, desired, id)
  {
  }

  /** An order of the nodes in which each comes after what it depends on. */
  predicate Ordered(w: World, order: seq<ID>) {
    IsTopological(IgnoreGraph(w), order)
  }

  /** There is one way only to resolve the nodes of an acyclic graph. */
  lemma {:induction false} SolutionUnique(w: World, order: seq<ID>, a: Desired, b: Desired, k: nat)
    requires WellWired(w) && Ordered(w, order) && k <= |order|
    requires Solves(w, a) && Solves(w, b)
    ensures SameOn(w, Elems(order[..k]), a, b) && Downward(w, Elems(order[..k]))
  {
    hide Step;
    if k > 0 {
      SolutionUnique(w, order, a, b, k - 1);
      var id, below := order[k - 1], Elems(order[..k - 1]);
      assert Elems(order[..k]) == below + {id};
      assert !w.specs[id].kind.Instance? ==> w.specs[id].deps <= below by {
        assert IgnoreGraph(w)[id] <= below;
      }
      if Managed(w, id) {
        StepLocal(w, below, a, b, id);
      }
    }
  }

  // ---- What the run emits. ----

  datatype ReadyState = Unspecified | NotReady | Ready

  datatype Composed = Composed(body: Json, ready: ReadyState)

  function ReadyStateOf(w: World, desired: Desired, id: ID): ReadyState
    requires WellWired(w) && id in w.specs
  {
    if w.specs[id].readyWhen == [] then Unspecified else if ObservedReady(w, desired, id) then Ready else NotReady
  }

  function ResourceName(w: World, id: ID, obj: Json): string
    requires id in w.specs
  {
    Naming.ComposedName(id, w.specs[id].kind.Collection?, Name(obj))
  }

  /** The entries for some objects of a node; of objects with the same name the last one stays. */
  function Entries(w: World, id: ID, objs: seq<Json>, ready: ReadyState): map<string, Composed>
    requires id in w.specs
  {
    if objs == [] then map[]
    else
      var obj := objs[|objs| - 1];
      Entries(w, id, objs[..|objs| - 1], ready)[ResourceName(w, id, obj) := Composed(obj, ready)]
  }

  lemma {:induction false} EntryComesFrom(w: World, id: ID, objs: seq<Json>, ready: ReadyState, name: string) returns (k: nat)
    requires id in w.specs && name in Entries(w, id, objs, ready)
    ensures k < |objs| && name == ResourceName(w, id, objs[k]) && Entries(w, id, objs, ready)[name] == Composed(objs[k], ready)
    decreases |objs|
  {
    k := |objs| - 1;
    if name != ResourceName(w, id, objs[k]) {
      k := EntryComesFrom(w, id, objs[..k], ready, name);
    }
  }

  lemma {:induction false} EveryNameEmitted(w: World, id: ID, objs: seq<Json>, ready: ReadyState)
    requires id in w.specs
    ensures forall k | 0 <= k < |objs| :: ResourceName(w, id, objs[k]) in Entries(w, id, objs, ready)
  {
    hide ResourceName;
    if objs != [] {
      EveryNameEmitted(w, id, objs[..|objs| - 1], ready);
      assert forall k | 0 <= k < |objs| - 1 :: objs[..|objs| - 1][k] == objs[k];
    }
  }

  predicate SameNameSameObject(w: World, id: ID, objs: seq<Json>)
    requires id in w.specs
  {
    forall i, j | 0 <= i < j < |objs| && ResourceName(w, id, objs[i]) == ResourceName(w, id, objs[j]) :: objs[i] == objs[j]
  }

  /** All objects of a node are emitted exactly if no two different ones have the same composed name. */
  lemma AllEmittedIff(w: World, id: ID, objs: seq<Json>, ready: ReadyState)
    requires id in w.specs
    ensures forall k | 0 <= k < |objs| :: ResourceName(w, id, objs[k]) in Entries(w, id, objs, ready)
    ensures SameNameSameObject(w, id, objs) <==>
            forall k | 0 <= k < |objs| :: Entries(w, id, objs, ready)[ResourceName(w, id, objs[k])] == Composed(objs[k], ready)
  {
    hide ResourceName, Entries;
    EveryNameEmitted(w, id, objs, ready);
    if SameNameSameObject(w, id, objs) {
      forall k | 0 <= k < |objs|
        ensures Entries(w, id, objs, ready)[ResourceName(w, id, objs[k])] == Composed(objs[k], ready)
      {
        var i := EntryComesFrom(w, id, objs, ready, ResourceName(w, id, objs[k]));
        assert i != k ==> objs[i] == objs[k];
      }
    }
  }

  predicate NamesDiffer(w: World, id: ID, objs: seq<Json>)
    requires id in w.specs
  {
    forall i, j | 0 <= i < j < |objs| :: ResourceName(w, id, objs[i]) != ResourceName(w, id, objs[j])
  }

  /** There are as many entries as objects exactly if all composed names differ, and otherwise fewer. */
  lemma {:induction false} EntriesCount(w: World, id: ID, objs: seq<Json>, ready: ReadyState)
    requires id in w.specs
    ensures |Entries(w, id, objs, ready)| <= |objs|
    ensures |Entries(w, id, objs, ready)| == |objs| <==> NamesDiffer(w, id, objs)
  {
    hide ResourceName;
    if objs != [] {
      var n := |objs| - 1;
      var less, all, name := Entries(w, id, objs[..n], ready), Entries(w, id, objs, ready), ResourceName(w, id, objs[n]);
      EntriesCount(w, id, objs[..n], ready);
      EveryNameEmitted(w, id, objs[..n], ready);
      assert all.Keys == less.Keys + {name};
      assert |all| == |all.Keys| && |less| == |less.Keys|;
      if name in less {
        var k := EntryComesFrom(w, id, objs[..n], ready, name);
        assert ResourceName(w, id, objs[k]) == ResourceName(w, id, objs[n]);
      }
    }
  }

  /**
    A collection of which two items have the same composed name is not ready as long as the items that are observed
    bear names that it emits now: they are fewer than are desired. Items under other names, left from earlier, count too.
   */
  lemma CollisionNeverReady(w: World, desired: Desired, id: ID, names: seq<string>)
    requires WellWired(w) && id in w.specs && w.specs[id].kind.Collection? && id in desired && !NamesDiffer(w, id, desired[id])
    requires Distinct(names) && |names| == |Observed(w, id)| && Elems(names) <= Emitted(w, desired, id).Keys
    ensures !ObservedReady(w, desired, id)
  {
    hide AllItemsReady;
    EntriesCount(w, id, desired[id], ReadyStateOf(w, desired, id));
    DistinctSize(names);
    SubsetSize(Elems(names), Emitted(w, desired, id).Keys);
    assert desired[id] != [];
  }

  function NamedObject(namespace: string, name: string): Json {
    Obj(map["metadata" := Obj(map["name" := Str(name), "namespace" := Str(namespace)])])
  }

  /** Items of a collection with different identities may have the same composed name. */
  lemma NamesCanCollide(id: ID)
    ensures DistinctIdentities([NamedObject("a", "x"), NamedObject("b", "x")])
    ensures Naming.ComposedName(id, true, Name(NamedObject("a", "x"))) == Naming.ComposedName(id, true, Name(NamedObject("b", "x")))
  {
    hide NamedObject, StringAt, Name, Namespace;
    var a, b := NamedObject("a", "x"), NamedObject("b", "x");
    NamedObjectRead("a", "x");
    NamedObjectRead("b", "x");
    assert IdentityKey(a) == "//" + "/" + "a" + "/" + "x";
    assert IdentityKey(b) == "//" + "/" + "b" + "/" + "x";
    assert IdentityKey(a)[3] == 'a' && IdentityKey(b)[3] == 'b';
  }

  lemma NamedObjectRead(namespace: string, name: string)
    ensures var o := NamedObject(namespace, name);
            && Name(o) == name && Namespace(o) == namespace
            && StringAt(o, [Field("apiVersion")]) == "" && StringAt(o, [Field("kind")]) == ""
  {
    var o := NamedObject(namespace, name);
    var m := Obj(map["name" := Str(name), "namespace" := Str(namespace)]);
    assert |"metadata"| != |"apiVersion"| && |"metadata"| != |"kind"| && |"name"| != |"namespace"|;
    assert [Field("name")][1..] == [] && [Field("namespace")][1..] == [];
    assert Get(m, [Field("name")]) == Some(Str(name)) && Get(m, [Field("namespace")]) == Some(Str(namespace));
    assert Get(o, MetadataField("name")) == Get(m, [Field("name")]) by {
      assert MetadataField("name")[1..] == [Field("name")];
    }
    assert Get(o, MetadataField("namespace")) == Get(m, [Field("namespace")]) by {
      assert MetadataField("namespace")[1..] == [Field("namespace")];
    }
  }

  function Emitted(w: World, desired: Desired, id: ID): map<string, Composed>
    requires WellWired(w)
  {
    if Managed(w, id) && id in desired then Entries(w, id, desired[id], ReadyStateOf(w, desired, id)) else map[]
  }

  /** `out` has what is emitted for the nodes of `ids`, and what was there before under other names. */
  ghost predicate Output(w: World, desired: Desired, ids: set<ID>, before: map<string, Composed>, out: map<string, Composed>)
    requires WellWired(w)
  {
    && (forall id, name | id in ids && name in Emitted(w, desired, id) :: name in out && out[name] == Emitted(w, desired, id)[name])
    && (forall name | name in out :: name in before || exists id | id in ids :: name in Emitted(w, desired, id))
    && (forall name | name in before && (forall id | id in ids :: name !in Emitted(w, desired, id)) ::
          name in out && out[name] == before[name])
  }

  ghost predicate ValidIDs(w: World) {
    forall id | Managed(w, id) :: Naming.ValidID(id)
  }

  /** Different nodes emit under different names. */
  lemma EmittedApart(w: World, desired: Desired, a: ID, b: ID, name: string)
    requires WellWired(w) && ValidIDs(w)
    requires name in Emitted(w, desired, a) && name in Emitted(w, desired, b)
    ensures a == b
  {
    var i := EntryComesFrom(w, a, desired[a], ReadyStateOf(w, desired, a), name);
    var j := EntryComesFrom(w, b, desired[b], ReadyStateOf(w, desired, b), name);
    Naming.ComposedNamesDiffer(a, w.specs[a].kind.Collection?, Name(desired[a][i]),
                               b, w.specs[b].kind.Collection?, Name(desired[b][j]));
  }

  lemma OutputUnique(w: World, desired: Desired, ids: set<ID>, before: map<string, Composed>,
                     a: map<string, Composed>, b: map<string, Composed>)
    requires WellWired(w) && Output(w, desired, ids, before, a) && Output(w, desired, ids, before, b)
    ensures a == b
  {
    hide Emitted;
    forall name | name in a ensures name in b && b[name] == a[name] {
      OutputSame(w, desired, ids, before, a, b, name);
    }
    forall name | name in b ensures name in a {
      OutputSame(w, desired, ids, before, b, a, name);
    }
  }

  lemma OutputSame(w: World, desired: Desired, ids: set<ID>, before: map<string, Composed>,
                   a: map<string, Composed>, b: map<string, Composed>, name: string)
    requires WellWired(w) && Output(w, desired, ids, before, a) && Output(w, desired, ids, before, b) && name in a
    ensures name in b && b[name] == a[name]
  {
    hide Emitted;
    if exists id | id in ids :: name in Emitted(w, desired, id) {
      var id :| id in ids && name in Emitted(w, desired, id);
    }
  }

  lemma EmittedSame(w: World, a: Desired, b: Desired, ids: set<ID>, id: ID)
    requires WellWired(w) && id in ids && SameOn(w, ids, a, b)
    ensures Emitted(w, a, id) == Emitted(w, b, id)
  {
    if Managed(w, id) {
      ReadyLocal(w, ids, a, b, id);
    }
  }

  lemma OutputSameDesired(w: World, a: Desired, b: Desired, ids: set<ID>, before: map<string, Composed>,
                          out: map<string, Composed>)
    requires WellWired(w) && SameOn(w, ids, a, b) && Output(w, b, ids, before, out)
    ensures Output(w, a, ids, before, out)
  {
    hide Emitted, SameOn, WellWired;
    forall id | id in ids ensures Emitted(w, a, id) == Emitted(w, b, id) {
      EmittedSame(w, a, b, ids, id);
    }
  }

  /** What a run with nothing resolved at first may end with. */
  ghost predicate RunResult(w: World, before: map<string, Composed>, desired: Desired, out: map<string, Composed>)
    requires WellWired(w)
  {
    Solves(w, desired) && Output(w, desired, w.specs.Keys, before, out)
  }

  /** All results that runs over the same acyclic graph and the same observations may have emit the same resources. */
  lemma RunsConfluent(w: World, order: seq<ID>, before: map<string, Composed>,
                      a: Desired, outA: map<string, Composed>, b: Desired, outB: map<string, Composed>)
    requires WellWired(w) && Ordered(w, order)
    requires RunResult(w, before, a, outA) && RunResult(w, before, b, outB)
    ensures outA == outB
  {
    hide Solves, Output, SameOn, WellWired;
    SolutionUnique(w, order, a, b, |order|);
    assert order[..|order|] == order;
    assert w.specs.Keys == IgnoreGraph(w).Keys == Elems(order);
    OutputSameDesired(w, a, b, w.specs.Keys, before, outB);
    OutputUnique(w, a, w.specs.Keys, before, outA, outB);
  }
}
