/** When the identifiers that the builder found for an expression are all that its evaluation needs. */
module Adequacy {
  import opened Graphs
  import opened World

  ghost predicate ReadsOnly(eval: Oracle, original: string, ids: set<string>) {
    forall c :: eval(original, c) == eval(original, OnlyThese(c, ids))
  }

  /** The references of a condition, field or dimension are dependencies of its node, and it reads nothing else. */
  ghost predicate Covered(w: World, spec: Spec, e: Expr) {
    e.refs <= spec.deps && ReadsOnly(w.eval, e.original, e.refs)
  }

  /** A readyWhen expression reads its own node only, and its references, if it has any, say so. */
  ghost predicate ReadsItself(w: World, id: ID, e: Expr) {
    ReadsOnly(w.eval, e.original, {id}) && (e.refs == {} || id in e.refs)
  }

  /**
    All references are right. `FromGraph` breaks this when a readyWhen expression, for which no references are
    recorded, is spelled like a condition, field or dimension: they then share the state without references.
   */
  ghost predicate Adequate(w: World) {
    forall id | id in w.specs :: AdequateSpec(w, id)
  }

  ghost predicate AdequateSpec(w: World, id: ID)
    requires id in w.specs
  {
    && (forall e | e in w.specs[id].includeWhen :: Covered(w, w.specs[id], e))
    && (forall v | v in w.specs[id].vars && !v.iteration :: Covered(w, w.specs[id], v.expr))
    && (forall f | f in w.specs[id].forEach :: Covered(w, w.specs[id], f.expr))
    && (!IsMany(w.specs[id].kind) ==> forall e | e in w.specs[id].readyWhen :: ReadsItself(w, id, e))
  }

  /** The filtered context of a node gives a covered expression the value that the whole context gives it. */
  lemma CoveredIsFresh(w: World, id: ID, e: Expr, only: set<string>)
    requires WellWired(w) && id in w.specs && Covered(w, w.specs[id], e)
    requires only == {} || e.refs <= only
    ensures w.eval(e.original, FilterContext(NodeContext(w, id, only), e.refs)) == Fresh(w, e)
  {
    var c, full, refs := FilterContext(NodeContext(w, id, only), e.refs), FullContext(w), e.refs;
    assert OnlyThese(c, refs) == OnlyThese(full, refs);
    assert w.eval(e.original, c) == w.eval(e.original, OnlyThese(c, refs));
    assert w.eval(e.original, full) == w.eval(e.original, OnlyThese(full, refs));
  }

  /** A node's own object is all that its readyWhen expressions need. */
  lemma ItselfIsFresh(w: World, id: ID, e: Expr)
    requires WellWired(w) && id in w.observed && !IsMany(w.specs[id].kind) && id != INSTANCE && ReadsItself(w, id, e)
    ensures w.eval(e.original, FilterContext(map[id := w.observed[id][0]], e.refs)) == Fresh(w, e)
  {
    var c, full := FilterContext(map[id := w.observed[id][0]], e.refs), FullContext(w);
    assert OnlyThese(c, {id}) == OnlyThese(full, {id});
    assert w.eval(e.original, c) == w.eval(e.original, OnlyThese(c, {id}));
    assert w.eval(e.original, full) == w.eval(e.original, OnlyThese(full, {id}));
  }

  lemma NodeContextWithin(w: World, id: ID, only: set<string>)
    requires WellWired(w) && id in w.specs
    ensures Within(NodeContext(w, id, only), FullContext(w))
  {
  }

  lemma FilterWithin(c: Ctx, d: Ctx, refs: set<string>)
    requires Within(c, d)
    ensures Within(FilterContext(c, refs), d)
  {
  }
}
