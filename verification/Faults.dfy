/** What a reconciliation may fail on, apart from data that is not there yet. */
module Faults {
  import opened Trees
  import opened Graphs
  import opened Resolver
  import opened Objects
  import opened Expansion
  import opened World
  import opened Reconcile
  import opened FieldPath
  import opened Template

  ghost predicate NeverFatal(w: World) {
    forall e, c :: !w.eval(e, c).Fatal?
  }

  /** Whatever the context, a value of the expression is a boolean or, if that is allowed, null. */
  ghost predicate YieldsBool(w: World, e: Expr, nullable: bool) {
    forall c | w.eval(e.original, c).Value? :: w.eval(e.original, c).v.Bool? || (nullable && w.eval(e.original, c).v.Null?)
  }

  /** Conditions are boolean, and where an item is looked at by itself they are not null either. */
  ghost predicate BooleanConditions(w: World, spec: Spec) {
    && (forall e | e in spec.includeWhen :: YieldsBool(w, e, true))
    && forall e | e in spec.readyWhen :: YieldsBool(w, e, !IsMany(spec.kind))
  }

  /** Dimensions are lists, and their product is within bounds. */
  ghost predicate BoundedDimensions(w: World, spec: Spec)
    requires WellWired(w)
  {
    && (forall f | f in spec.forEach && Fresh(w, f.expr).Value? :: Fresh(w, f.expr).v.Arr?)
    && (spec.forEach != [] && DimensionsOf(w, spec.forEach).Available? ==>
         Product(Lengths(DimensionsOf(w, spec.forEach).dims)) <= w.maxCollectionSize)
  }

  predicate Covers(vars: seq<Variable>, data: Data) {
    forall v | v in vars :: v.expr.original in data
  }

  /** Once there are values for all fields, every field finds its place; forEach variables occur in collections only. */
  ghost predicate Renders(spec: Spec) {
    && (forall data | Covers(spec.vars, data) :: Rendered(spec.template, Descriptors(spec.vars), data).Some?)
    && (spec.kind.Collection? || forall v | v in spec.vars :: !v.iteration)
  }

  lemma BaseCovers(w: World, spec: Spec, data: Data)
    requires WellWired(w) && Renders(spec) && !spec.kind.Collection? && BaseData(w, spec.vars) == Some(data)
    ensures Covers(spec.vars, data)
  {
  }

  lemma ItemCovers(w: World, id: ID, base: Data, binding: Binding, data: Data)
    requires WellWired(w) && id in w.specs && ItemData(w, id, base, binding) == Some(data)
    requires Originals(w.specs[id].vars, false) <= base.Keys
    ensures Covers(w.specs[id].vars, data)
  {
    hide IterationContext;
    forall v | v in w.specs[id].vars ensures v.expr.original in data {
      assert v.expr.original in Originals(w.specs[id].vars, v.iteration);
    }
  }

  lemma CoveredRenders(spec: Spec, data: Data)
    requires Renders(spec) && Covers(spec.vars, data)
    ensures Rendered(spec.template, Descriptors(spec.vars), data).Some?
  {
  }

  /** The fields are the expressions of the template, and the path notation carries their places. */
  ghost predicate FieldsOfTemplate(spec: Spec) {
    && spec.template.Obj? && Describes(spec.template, [], Descriptors(spec.vars))
    && forall p | ExprAt(spec.template, p).Some? :: AllCarriable(p)
  }

  /** The template's metadata are a map. */
  ghost predicate CarriesMetadata(spec: Spec) {
    FieldsOfTemplate(spec) && "metadata" in spec.template.fields && spec.template.fields["metadata"].Obj?
  }

  lemma FieldsEvaluable(spec: Spec, data: Data)
    requires FieldsOfTemplate(spec) && Covers(spec.vars, data)
    ensures Evaluable(spec.template, data)
  {
    hide ExprAt, Print;
    var t, ds := spec.template, Descriptors(spec.vars);
    var ps :| AllPlaces(t, ps) && DescribesEach(t, [], ds, ps);
    forall p | ExprAt(t, p).Some? ensures ExprAt(t, p).value in data {
      var i :| 0 <= i < |ps| && ps[i] == p;
      assert spec.vars[i] in spec.vars && ds[i].expr == spec.vars[i].expr.original;
    }
  }

  /** Then a node's object is its template with every expression replaced by its value and what is omitted deleted. */
  lemma RenderedSubstitutes(spec: Spec, data: Data)
    requires FieldsOfTemplate(spec) && Covers(spec.vars, data)
    ensures Rendered(spec.template, Descriptors(spec.vars), data) == Some(Clean(Substituted(spec.template, data)))
  {
    hide Evaluable, Describes, AppliedAll, Outcome, Clean, Substituted, ExprAt;
    FieldsEvaluable(spec, data);
    TemplateSubstitution(spec.template, Descriptors(spec.vars), data);
  }

  /** The items of a collection have different identities. */
  ghost predicate ItemsApart(w: World, id: ID)
    requires WellWired(w) && id in w.specs
  {
    match (BaseData(w, w.specs[id].vars), Bindings(w, id))
    case (Some(base), Some(bindings)) =>
      var items := ItemsOf(w, id, base, bindings);
      items.Some? ==> DistinctIdentities(items.value)
    case _ => true
  }

  /** Conditions are never fatal, and where they have a value it is of the kind that is asked for. */
  ghost predicate ConditionsFaultless(w: World) {
    NeverFatal(w) && forall id | id in w.specs :: BooleanConditions(w, w.specs[id])
  }

  /** Evaluation is never fatal, and what it yields is of the kind that is asked for. */
  ghost predicate Faultless(w: World)
    requires WellWired(w)
  {
    && NeverFatal(w)
    && forall id | id in w.specs ::
         && BooleanConditions(w, w.specs[id]) && BoundedDimensions(w, w.specs[id]) && Renders(w.specs[id])
         && ItemsApart(w, id)
  }

  lemma FaultlessNode(w: World, id: ID)
    requires WellWired(w) && Faultless(w) && id in w.specs
    ensures NeverFatal(w) && BooleanConditions(w, w.specs[id]) && BoundedDimensions(w, w.specs[id]) && Renders(w.specs[id])
    ensures ItemsApart(w, id)
  {
  }

  /** Every condition of the node is decided one way or the other. */
  predicate ConditionsDecided(w: World, desired: Desired, id: ID)
    requires WellWired(w) && id in w.specs
  {
    w.specs[id].kind.Instance? ||
    (&& (forall r | r in ConditionRefs(w.specs[id]) :: r in w.specs[id].deps && ObservedReady(w, desired, r))
     && (forall e | e in w.specs[id].includeWhen :: Holds(w, e) || Denies(w, e)))
  }

  /** So is every condition of everything that it depends on. */
  ghost predicate AllDecided(w: World, desired: Desired, id: ID)
    requires WellWired(w) && id in w.specs
  {
    forall m | m in w.specs && Reaches(IgnoreGraph(w), id, m) :: ConditionsDecided(w, desired, m)
  }

  lemma DecidedBelow(w: World, desired: Desired, id: ID)
    requires WellWired(w) && id in w.specs && !w.specs[id].kind.Instance? && AllDecided(w, desired, id)
    ensures ConditionsDecided(w, desired, id) && forall d | d in w.specs[id].deps :: AllDecided(w, desired, d)
  {
    hide ConditionsDecided;
    ReachesItself(IgnoreGraph(w), id);
    forall d, m | d in w.specs[id].deps && m in w.specs && Reaches(IgnoreGraph(w), d, m) ensures ConditionsDecided(w, desired, m) {
      ReachesStep(IgnoreGraph(w), id, d, m);
    }
  }

  /** If all is decided, a node that is not excluded is included. */
  lemma DecidedEitherWay(w: World, desired: Desired, id: ID)
    requires WellWired(w) && id in w.specs && AllDecided(w, desired, id)
    ensures Excluded(w, id) <==> !Included(w, desired, id)
  {
    if Excluded(w, id) {
      ExcludedNotIncluded(w, desired, id);
    }
    if !Included(w, desired, id) {
      var m :| m in w.specs && Reaches(IgnoreGraph(w), id, m) && !OwnConditions(w, desired, m);
      assert ConditionsDecided(w, desired, m);
      assert Denied(w, m);
    }
  }
}
