/** What is not referred to makes no difference: the contexts that expressions are evaluated in are as narrow as possible. */
module Narrowing {
  import opened Graphs
  import opened Resolver
  import opened Expansion
  import opened World
  import opened Walks
  import opened Meanings

  /** The same is observed of `d`. */
  predicate SameObserved(w: World, v: World, d: ID) {
    (d in w.observed <==> d in v.observed) && (d in w.observed ==> w.observed[d] == v.observed[d])
  }

  /** The worlds differ in what is observed only. */
  ghost predicate Siblings(w: World, v: World) {
    WellWired(w) && WellWired(v) && v == w.(observed := v.observed)
  }

  lemma SameContext(w: World, v: World, id: ID, only: set<string>)
    requires Siblings(w, v) && id in w.specs && only != {} && forall d | d in only :: SameObserved(w, v, d)
    ensures NodeContext(w, id, only) == NodeContext(v, id, only)
  {
  }

  /** Fields: what no field that is asked for refers to. */
  lemma {:induction false} FieldsNarrow(w: World, v: World, cache: Cache, id: ID, only: set<string>, i: nat, values: Data)
    requires Siblings(w, v) && id in w.specs
    requires exists x, r :: x in w.specs[id].vars && !x.iteration && x.expr.original in only && r in x.expr.refs
    requires forall x, r | x in w.specs[id].vars && !x.iteration && x.expr.original in only && r in x.expr.refs :: SameObserved(w, v, r)
    ensures BaseFrom(w, cache, id, only, i, values) == BaseFrom(v, cache, id, only, i, values)
    decreases |w.specs[id].vars| - i
  {
    hide WellWired, Look, NodeContext, SameObserved;
    var vars := w.specs[id].vars;
    if i < |vars| {
      if vars[i].iteration || vars[i].expr.original !in only {
        FieldsNarrow(w, v, cache, id, only, i + 1, values);
      } else {
        var x, r :| x in vars && !x.iteration && x.expr.original in only && r in x.expr.refs;
        assert r in FieldRefs(vars, only);
        SameContext(w, v, id, FieldRefs(vars, only));
        var e := vars[i].expr;
        var (value, c) := Look(w.eval, cache, Text(e.original), e, NodeContext(w, id, FieldRefs(vars, only)));
        if value.Value? {
          FieldsNarrow(w, v, c, id, only, i + 1, values[e.original := value.v]);
        }
      }
    }
  }

  /** Conditions: what no condition of the node refers to. */
  lemma {:induction false} ConditionsNarrow(w: World, v: World, cache: Cache, id: ID, i: nat)
    requires Siblings(w, v) && id in w.specs
    requires exists e, r :: e in w.specs[id].includeWhen && r in e.refs
    requires forall e, r | e in w.specs[id].includeWhen && r in e.refs :: SameObserved(w, v, r)
    ensures ConditionsFrom(w, cache, id, i) == ConditionsFrom(v, cache, id, i)
    decreases |w.specs[id].includeWhen| - i
  {
    hide WellWired, Look, NodeContext, SameObserved;
    var es := w.specs[id].includeWhen;
    if i < |es| {
      var e, r :| e in es && r in e.refs;
      assert r in NeededBy(es);
      SameContext(w, v, id, NeededBy(es));
      ConditionsNarrow(w, v, Look(w.eval, cache, Text(es[i].original), es[i], NodeContext(w, id, NeededBy(es))).1, id, i + 1);
    }
  }

  /** Dimensions: what no dimension of the node refers to. */
  lemma {:induction false} DimensionsNarrow(w: World, v: World, cache: Cache, id: ID, i: nat, dims: seq<Dimension>)
    requires Siblings(w, v) && id in w.specs && NoneEmpty(Lengths(dims))
    requires exists f, r :: f in w.specs[id].forEach && r in f.expr.refs
    requires forall f, r | f in w.specs[id].forEach && r in f.expr.refs :: SameObserved(w, v, r)
    ensures ForEachFrom(w, cache, id, i, dims) == ForEachFrom(v, cache, id, i, dims)
    decreases |w.specs[id].forEach| - i
  {
    hide WellWired, Look, NodeContext, SameObserved, Product, NoneEmpty, Combination;
    var all := w.specs[id].forEach;
    if i < |all| {
      var f, r :| f in all && r in f.expr.refs;
      assert r in DimensionRefs(all);
      SameContext(w, v, id, DimensionRefs(all));
      var (value, c) := Look(w.eval, cache, Dim(id, i), all[i].expr, NodeContext(w, id, DimensionRefs(all)));
      if value.Value? && value.v.Arr? && value.v.items != [] {
        OneDimensionMore(dims, Dimension(all[i].name, value.v.items));
        DimensionsNarrow(w, v, c, id, i + 1, dims + [Dimension(all[i].name, value.v.items)]);
      }
    }
  }
}
