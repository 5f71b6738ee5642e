/** What the items of a collection are made of, and how they are recognised when they are observed. */
module Items {
  import opened Text
  import opened Trees
  import opened Graphs
  import opened FieldPath
  import opened Template
  import opened Resolver
  import opened Objects
  import opened Expansion
  import opened World
  import opened Reconcile
  import opened Faults
  import Naming

  // ---- The context of an item. ----

  predicate DifferentVariables(forEach: seq<ForEach>) {
    forall i, j | 0 <= i < j < |forEach| :: forEach[i].name != forEach[j].name
  }

  lemma {:induction false} DimensionsAre(w: World, forEach: seq<ForEach>)
    requires WellWired(w) && DimensionsOf(w, forEach).Available?
    ensures var dims := DimensionsOf(w, forEach).dims;
            |dims| == |forEach| && forall i | 0 <= i < |forEach| ::
              dims[i].name == forEach[i].name && w.eval(forEach[i].expr.original, FullContext(w)) == Value(Arr(dims[i].values))
  {
    hide WellWired, FullContext;
    if forEach != [] {
      DimensionsAre(w, forEach[1..]);
    }
  }

  /** The list that a forEach variable runs through. */
  function Listed(w: World, f: ForEach): seq<Json>
    requires WellWired(w)
  {
    match w.eval(f.expr.original, FullContext(w)) case Value(Arr(values)) => values case _ => []
  }

  function Counts(w: World, forEach: seq<ForEach>): (r: seq<nat>)
    requires WellWired(w)
    ensures |r| == |forEach| && forall i | 0 <= i < |r| :: r[i] == |Listed(w, forEach[i])|
  {
    seq(|forEach|, i requires 0 <= i < |forEach| => |Listed(w, forEach[i])|)
  }

  lemma BindingsAre(w: World, id: ID, k: nat)
    requires WellWired(w) && id in w.specs && Bindings(w, id).Some? && k < |Bindings(w, id).value|
    ensures DimensionsOf(w, w.specs[id].forEach).Available?
    ensures var dims := DimensionsOf(w, w.specs[id].forEach).dims;
            && NoneEmpty(Lengths(dims)) && |Bindings(w, id).value| == Product(Lengths(dims))
            && Bindings(w, id).value[k] == Combination(dims, k)
  {
    hide WellWired, FullContext, DimensionsOf, Product, NoneEmpty, Combination;
    if DimensionsOf(w, w.specs[id].forEach).Available? {
      DimensionsNotEmpty(w, w.specs[id].forEach);
    }
  }

  /** The expressions before `i` are lists that are not empty. */
  ghost predicate ListsBefore(w: World, forEach: seq<ForEach>, i: nat)
    requires WellWired(w) && i <= |forEach|
  {
    forall j | 0 <= j < i :: IsList(w, forEach[j]) && Listed(w, forEach[j]) != []
  }

  predicate IsList(w: World, f: ForEach)
    requires WellWired(w)
  {
    var r := w.eval(f.expr.original, FullContext(w)); r.Value? && r.v.Arr?
  }

  lemma {:induction false} DimensionsEnd(w: World, forEach: seq<ForEach>, i: nat)
    requires WellWired(w) && i <= |forEach| && ListsBefore(w, forEach, i)
    ensures i == |forEach| ==> DimensionsOf(w, forEach).Available?
    ensures i < |forEach| && IsList(w, forEach[i]) && Listed(w, forEach[i]) == [] ==> DimensionsOf(w, forEach).Empty?
    ensures i < |forEach| && !IsList(w, forEach[i]) ==> DimensionsOf(w, forEach).Unavailable?
    decreases |forEach|
  {
    hide WellWired, FullContext;
    if i > 0 {
      assert forEach[1..][i - 1..] == forEach[i..];
      assert IsList(w, forEach[0]) && Listed(w, forEach[0]) != [];
      assert ListsBefore(w, forEach[1..], i - 1);
      DimensionsEnd(w, forEach[1..], i - 1);
    }
  }

  /**
    How many items there are: none as soon as a list is empty, no answer if something is no list, and otherwise one for
    each combination, unless there are too many.
   */
  lemma HowManyItems(w: World, id: ID, i: nat)
    requires WellWired(w) && id in w.specs && w.specs[id].forEach != [] && i <= |w.specs[id].forEach|
    requires ListsBefore(w, w.specs[id].forEach, i)
    ensures var forEach, r := w.specs[id].forEach, Bindings(w, id);
            if i == |forEach| then
              var n := Product(Counts(w, forEach));
              (r.Some? <==> n <= w.maxCollectionSize) && (r.Some? ==> |r.value| == n)
            else if !IsList(w, forEach[i]) then r == None
            else Listed(w, forEach[i]) == [] ==> r == Some([])
  {
    hide WellWired, FullContext, DimensionsOf, Product, NoneEmpty, Combination, IsList, ListsBefore;
    var forEach := w.specs[id].forEach;
    DimensionsEnd(w, forEach, i);
    if i == |forEach| {
      var dims := DimensionsOf(w, forEach).dims;
      DimensionsAre(w, forEach);
      DimensionsNotEmpty(w, forEach);
      assert Lengths(dims) == Counts(w, forEach);
    }
  }

  /** In the context of item `k`, every forEach variable has the value of its own list at its own digit of `k`. */
  lemma ItemVariables(w: World, id: ID, k: nat, i: nat)
    requires WellWired(w) && id in w.specs && Bindings(w, id).Some? && k < |Bindings(w, id).value|
    requires DifferentVariables(w.specs[id].forEach) && i < |w.specs[id].forEach|
    ensures var forEach, ctx := w.specs[id].forEach, IterationContext(w, id, Bindings(w, id).value[k]);
            var lens := Counts(w, forEach);
            && NoneEmpty(lens) && |Bindings(w, id).value| == Product(lens) && Digits(lens, k)[i] < |Listed(w, forEach[i])|
            && forEach[i].name in ctx && ctx[forEach[i].name] == Listed(w, forEach[i])[Digits(lens, k)[i]]
  {
    hide WellWired, FullContext, NodeContext, Bindings, DimensionsOf, Product, NoneEmpty;
    var forEach := w.specs[id].forEach;
    BindingsAre(w, id, k);
    var dims := DimensionsOf(w, forEach).dims;
    DimensionsAre(w, forEach);
    assert Lengths(dims) == Counts(w, forEach);
    RankOfDigits(Lengths(dims), k);
    assert DistinctNames(dims);
    BoundValues(dims, Digits(Lengths(dims), k), i);
  }

  /** Some field of an item refers to `d`, or none refers to anything. */
  predicate Needed(vars: seq<Variable>, d: ID) {
    (exists v :: v in vars && v.iteration && d in v.expr.refs) || forall v | v in vars && v.iteration :: v.expr.refs == {}
  }

  /** Beside them it has the observed dependencies that are needed, each with its object or the list of its objects. */
  lemma ItemDependencies(w: World, id: ID, binding: Binding, d: ID)
    requires WellWired(w) && id in w.specs && d !in binding
    ensures var ctx := IterationContext(w, id, binding);
            && (d in ctx <==> d in w.observed && d in w.specs[id].deps && Needed(w.specs[id].vars, d))
            && (d in ctx && IsMany(w.specs[d].kind) ==> ctx[d] == Arr(w.observed[d]))
            && (d in ctx && !IsMany(w.specs[d].kind) && d != INSTANCE ==> ctx[d] == w.observed[d][0])
  {
    var vars := w.specs[id].vars;
    assert IterationRefs(vars) == {} <==> forall v | v in vars && v.iteration :: v.expr.refs == {} by {
      forall v, r | v in vars && v.iteration && r in v.expr.refs ensures r in IterationRefs(vars) {
      }
      forall r | r in IterationRefs(vars) ensures exists v :: v in vars && v.iteration && v.expr.refs != {} {
        var v :| v in vars && v.iteration && r in v.expr.refs;
      }
    }
  }

  // ---- What an item holds. ----

  lemma {:induction false} SubstitutedAt(t: Json, p: Path, data: Data)
    requires ExprAt(t, p).Some? && ExprAt(t, p).value in data
    ensures Get(Substituted(t, data), p) == Some(data[ExprAt(t, p).value])
    decreases |p|
  {
    hide LeafExpr;
    if p != [] {
      SubstitutedAt(At(t, p[0]), p[1..], data);
    }
  }

  /** The label changes nothing beside the labels. */
  lemma BesideLabels(obj: Json, index: nat, q: Path)
    requires Unrelated(MetadataField("labels"), q) && Get(obj, q).Some?
    ensures Get(WithCollectionIndex(obj, index), q) == Get(obj, q)
  {
    if Get(obj, [Field("metadata")]) != Some(Null) {
      PutFrame(obj, MetadataField("labels"), Obj(Labels(obj)[COLLECTION_INDEX_LABEL := Str(Itoa(index))]), q);
    }
  }

  /** A field of a resolved node reads as the value of its expression on everything that is observed. */
  lemma FieldReadsValue(w: World, id: ID, p: Path, e: string) returns (rendered: Json)
    requires WellWired(w) && id in w.specs && !w.specs[id].kind.Collection? && ObjectsOf(w, id).Some? && FieldsOfTemplate(w.specs[id])
    requires ExprAt(w.specs[id].template, p) == Some(e) && forall v | v in w.specs[id].vars :: !v.iteration
    ensures |ObjectsOf(w, id).value| == 1 && w.eval(e, FullContext(w)).Value? && Get(rendered, p) == Some(w.eval(e, FullContext(w)).v)
    ensures KeptAt(rendered, p) ==>
              Get(ObjectsOf(w, id).value[0], CleanPath(rendered, p)) == Some(Clean(w.eval(e, FullContext(w)).v))
  {
    hide WellWired, FullContext, FieldsOfTemplate, Rendered, Substituted, ExprAt, Clean, Get, KeptAt, CleanPath;
    var spec := w.specs[id];
    var data := BaseData(w, spec.vars).value;
    DataCovers(w, spec.vars, data);
    RenderedSubstitutes(spec, data);
    rendered := Substituted(spec.template, data);
    ExprIsField(spec, p);
    SubstitutedAt(spec.template, p, data);
    if KeptAt(rendered, p) {
      CleanKeeps(rendered, p);
    }
  }

  lemma DataCovers(w: World, vars: seq<Variable>, data: Data)
    requires WellWired(w) && BaseData(w, vars) == Some(data) && forall v | v in vars :: !v.iteration
    ensures Covers(vars, data)
  {
    hide WellWired, FullContext;
    forall v | v in vars ensures v.expr.original in data {
      assert v.expr.original in Originals(vars, false);
    }
  }

  lemma ExprIsField(spec: Spec, p: Path)
    requires FieldsOfTemplate(spec) && ExprAt(spec.template, p).Some?
    ensures exists v :: v in spec.vars && v.expr.original == ExprAt(spec.template, p).value
  {
    hide ExprAt;
    var ps :| AllPlaces(spec.template, ps) && DescribesEach(spec.template, [], Descriptors(spec.vars), ps);
    var i :| 0 <= i < |ps| && ps[i] == p;
    assert spec.vars[i] in spec.vars && Descriptors(spec.vars)[i].expr == spec.vars[i].expr.original;
  }

  /** A field that has no place in the template, or whose path is none, is an error. */
  lemma UnplacedFails(spec: Spec, data: Data, i: nat)
    requires i < |spec.vars| && PairwiseApart(Descriptors(spec.vars))
    requires Parsed(spec.vars[i].path).Err? || Get(spec.template, Parsed(spec.vars[i].path).value).None?
    ensures Rendered(spec.template, Descriptors(spec.vars), data) == None
  {
    hide AppliedAll, Parsed;
    OutcomeIndependent(spec.template, Descriptors(spec.vars), data, i);
    assert !Outcome(spec.template, Descriptors(spec.vars)[i], data).Resolved?;
  }

  /** An expression that is nothing but a variable. */
  ghost predicate Mentions(w: World, d: string) {
    forall ctx: Ctx | d in ctx :: w.eval(d, ctx) == Value(ctx[d])
  }

  /** A field that is nothing but a forEach variable reads as that variable's value in the item. */
  lemma FieldReadsVariable(w: World, id: ID, base: Data, binding: Binding, k: nat, p: Path, d: string) returns (rendered: Json)
    requires WellWired(w) && id in w.specs && ItemOf(w, id, base, binding, k).Some? && FieldsOfTemplate(w.specs[id])
    requires Originals(w.specs[id].vars, false) <= base.Keys && d in Originals(w.specs[id].vars, true)
    requires d in binding && Mentions(w, d) && ExprAt(w.specs[id].template, p) == Some(d)
    ensures Get(rendered, p) == Some(binding[d])
    ensures KeptAt(rendered, p) && Unrelated(MetadataField("labels"), CleanPath(rendered, p)) ==>
              Get(ItemOf(w, id, base, binding, k).value, CleanPath(rendered, p)) == Some(Clean(binding[d]))
  {
    hide WellWired, NodeContext, FieldsOfTemplate, Rendered, Substituted, ExprAt, Clean, Get, KeptAt, CleanPath, WithCollectionIndex, Unrelated;
    var spec := w.specs[id];
    var data := ItemData(w, id, base, binding).value;
    ItemCovers(w, id, base, binding, data);
    RenderedSubstitutes(spec, data);
    rendered := Substituted(spec.template, data);
    assert d in IterationContext(w, id, binding) && IterationContext(w, id, binding)[d] == binding[d];
    assert data[d] == binding[d];
    SubstitutedAt(spec.template, p, data);
    if KeptAt(rendered, p) && Unrelated(MetadataField("labels"), CleanPath(rendered, p)) {
      CleanKeeps(rendered, p);
      BesideLabels(Clean(rendered), k, CleanPath(rendered, p));
    }
  }

  /** Item `k` carries its number, if its rendered template can carry labels. */
  lemma ItemNumbered(w: World, id: ID, base: Data, bindings: seq<Binding>, k: nat)
    requires WellWired(w) && id in w.specs && ItemsOf(w, id, base, bindings).Some? && k < |bindings|
    ensures var items := ItemsOf(w, id, base, bindings).value;
            && |items| == |bindings| && ItemData(w, id, base, bindings[k]).Some?
            && var obj := Rendered(w.specs[id].template, Descriptors(w.specs[id].vars), ItemData(w, id, base, bindings[k]).value);
               && obj.Some? && (HasIndex(items[k]) <==> TakesLabels(obj.value))
               && (TakesLabels(obj.value) ==> Get(items[k], LabelPath("kro.run/collection-index")) == Some(Str(Itoa(k))))
  {
    hide WellWired, ItemData, Rendered, WithCollectionIndex, HasIndex, TakesLabels, LabelPath, Itoa;
    ItemsOfEach(w, id, base, bindings);
    var obj := Rendered(w.specs[id].template, Descriptors(w.specs[id].vars), ItemData(w, id, base, bindings[k]).value).value;
    IndexLabelled(obj, k);
  }

  // ---- What is emitted is found again. ----

  lemma RenderedTakesLabels(spec: Spec, data: Data)
    requires CarriesMetadata(spec) && Covers(spec.vars, data)
    ensures var obj := Rendered(spec.template, Descriptors(spec.vars), data); obj.Some? && TakesLabels(obj.value)
  {
    RenderedSubstitutes(spec, data);
    hide FieldsOfTemplate, Rendered;
    var t := Substituted(spec.template, data);
    assert "metadata" in t.fields && t.fields["metadata"].Obj?;
    assert "metadata" in Clean(t).fields && Clean(t).fields["metadata"] == Clean(t.fields["metadata"]);
  }

  lemma ItemsLabelled(w: World, id: ID)
    requires WellWired(w) && id in w.specs && w.specs[id].kind.Collection? && ObjectsOf(w, id).Some? && CarriesMetadata(w.specs[id])
    ensures forall o | o in ObjectsOf(w, id).value :: HasIndex(o)
  {
    hide WellWired, CarriesMetadata, ItemData, Rendered, HasIndex, TakesLabels, LabelPath, Bindings, ItemsOf, FullContext;
    var spec := w.specs[id];
    var base, bindings := BaseData(w, spec.vars).value, Bindings(w, id).value;
    var objs := ObjectsOf(w, id).value;
    ItemsOfEach(w, id, base, bindings);
    forall k | 0 <= k < |objs| ensures HasIndex(objs[k]) {
      ItemNumbered(w, id, base, bindings, k);
      ItemCovers(w, id, base, bindings[k], ItemData(w, id, base, bindings[k]).value);
      RenderedTakesLabels(spec, ItemData(w, id, base, bindings[k]).value);
    }
  }

  /** What a node emits is listed under this node and no other when it is observed. */
  lemma EmittedIsGrouped(w: World, desired: Desired, id: ID, name: string, ocds: map<string, Json>, nodes: set<ID>, collections: set<ID>,
                         groups: map<ID, seq<Json>>, members: map<ID, seq<string>>)
    requires WellWired(w) && name in Emitted(w, desired, id) && name in ocds && ocds[name] == Emitted(w, desired, id)[name].body
    requires ObjectsOf(w, id) == Some(desired[id]) && (w.specs[id].kind.Collection? ==> CarriesMetadata(w.specs[id]))
    requires id in nodes && collections <= nodes && (w.specs[id].kind.Collection? <==> id in collections)
    requires forall n | n in nodes :: Naming.ValidID(n)
    requires Naming.Grouped(ocds, nodes, collections, groups, members)
    ensures forall owner :: Naming.Member(members, name, owner) <==> owner == id
  {
    hide WellWired, CarriesMetadata, HasIndex, ObjectsOf, Naming.BelongsTo, Naming.ValidID, Naming.Lists, ObservedReady;
    var many := w.specs[id].kind.Collection?;
    var k := EntryComesFrom(w, id, desired[id], ReadyStateOf(w, desired, id), name);
    var obj := desired[id][k];
    if many {
      ItemsLabelled(w, id);
    }
    forall owner ensures Naming.BelongsTo(name, HasIndex(obj), nodes, collections, owner) <==> owner == id {
      Naming.EmittedBelongsToEmitter(id, many, Name(obj), nodes, collections, owner);
      if !many {
        Namesake(name, nodes, collections, owner);
      }
    }
  }

  lemma Namesake(name: string, nodes: set<ID>, collections: set<ID>, owner: ID)
    requires name in nodes
    ensures forall labelled :: Naming.BelongsTo(name, labelled, nodes, collections, owner) <==> owner == name
  {
  }
}
