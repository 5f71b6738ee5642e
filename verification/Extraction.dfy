/** Why the references of a whole graph are right, and when sharing expression states keeps them so. */
module Extraction {
  import opened Sets
  import opened Trees
  import opened Graphs
  import opened World
  import opened Adequacy
  import opened References
  import opened Wiring
  import opened Sharing

  /** Evaluation reads what is recorded, and what is recorded are dependencies. */
  ghost predicate RightExpr(g: ResourceGraph, eval: Oracle, n: GraphNode, e: Expr) {
    e.refs <= Linked(g, n) && ReadsOnly(eval, e.original, e.refs)
  }

  /** What a readyWhen expression may look at. */
  function ReadySubject(n: GraphNode, id: ID): string {
    if n.kind.Collection? then EACH else id
  }

  ghost predicate RightNode(g: ResourceGraph, eval: Oracle, n: GraphNode, id: ID) {
    && (forall e | e in n.includeWhen :: RightExpr(g, eval, n, e))
    && (forall v | v in n.vars && !v.iteration :: RightExpr(g, eval, n, v.expr))
    && (forall v | v in n.vars && v.iteration :: ReadsOnly(eval, v.expr.original, v.expr.refs))
    && (forall f | f in n.forEach :: RightExpr(g, eval, n, f.expr))
    && (forall e | e in n.readyWhen :: e.refs == {} && ReadsOnly(eval, e.original, {ReadySubject(n, id)}))
  }

  /** Every node and the instance has right references of its own. */
  ghost predicate RightReferences(g: ResourceGraph, eval: Oracle) {
    (forall id | id in g.nodes :: RightNode(g, eval, g.nodes[id], id)) && RightNode(g, eval, InstanceOf(g), INSTANCE)
  }

  // ---- From inspection. ----

  function Names(g: ResourceGraph): set<string> {
    g.nodes.Keys + {INSTANCE, EACH}
  }

  /** What the builder records for one expression: extracted references, all of which are dependencies. */
  ghost predicate InspectedExpr(g: ResourceGraph, lang: Language, n: GraphNode, e: Expr) {
    Recorded(lang, Names(g), e) && e.refs - {INSTANCE} <= Elems(n.dependencies) && (n.kind.Instance? ==> INSTANCE !in e.refs)
  }

  ghost predicate InspectedNode(g: ResourceGraph, lang: Language, n: GraphNode, id: ID) {
    && (forall e | e in n.includeWhen :: InspectedExpr(g, lang, n, e))
    && (forall v | v in n.vars && !v.iteration :: InspectedExpr(g, lang, n, v.expr))
    && (forall v | v in n.vars && v.iteration :: Recorded(lang, Names(g), v.expr))
    && (forall f | f in n.forEach :: InspectedExpr(g, lang, n, f.expr))
    && (forall e | e in n.readyWhen ::
          && e.refs == {} && Clean(lang, Names(g), e.original)
          && forall x | IsSeen(lang, Names(g), e.original, x) :: x == ReadySubject(n, id))
    && Elems(n.dependencies) <= g.nodes.Keys
  }

  /** Every expression has been inspected, no comprehension captures an identifier, and dependencies are nodes. */
  ghost predicate Inspected(g: ResourceGraph, lang: Language) {
    (forall id | id in g.nodes :: InspectedNode(g, lang, g.nodes[id], id)) && InspectedNode(g, lang, InstanceOf(g), INSTANCE)
  }

  lemma InspectedExprRight(g: ResourceGraph, lang: Language, eval: Oracle, n: GraphNode, e: Expr)
    requires Speaks(eval, lang) && InspectedExpr(g, lang, n, e) && Elems(n.dependencies) <= g.nodes.Keys
    ensures RightExpr(g, eval, n, e)
  {
    RecordedReads(eval, lang, Names(g), e);
    hide Clean, IsSeen, ReadsOnly, Speaks;
    forall r | r in e.refs ensures r in Linked(g, n) {
      assert r != INSTANCE ==> r in e.refs - {INSTANCE} && r in Elems(n.dependencies);
    }
  }

  lemma InspectedNodeRight(g: ResourceGraph, lang: Language, eval: Oracle, n: GraphNode, id: ID)
    requires Speaks(eval, lang) && InspectedNode(g, lang, n, id)
    ensures RightNode(g, eval, n, id)
  {
    hide Clean, IsSeen, ReadsOnly, Speaks, RightExpr, Recorded, InspectedExpr;
    forall e | InspectedExpr(g, lang, n, e) ensures RightExpr(g, eval, n, e) {
      InspectedExprRight(g, lang, eval, n, e);
    }
    forall v | v in n.vars && v.iteration ensures ReadsOnly(eval, v.expr.original, v.expr.refs) {
      RecordedReads(eval, lang, Names(g), v.expr);
    }
    forall e | e in n.readyWhen ensures ReadsOnly(eval, e.original, {ReadySubject(n, id)}) {
      SeenIsRead(eval, lang, Names(g), e.original, {ReadySubject(n, id)});
    }
  }

  /** Inspection records right references. */
  lemma InspectedRight(g: ResourceGraph, lang: Language, eval: Oracle)
    requires Speaks(eval, lang) && Inspected(g, lang)
    ensures RightReferences(g, eval)
  {
    hide InspectedNode, RightNode, Speaks;
    forall id | id in g.nodes ensures RightNode(g, eval, g.nodes[id], id) {
      InspectedNodeRight(g, lang, eval, g.nodes[id], id);
    }
    InspectedNodeRight(g, lang, eval, InstanceOf(g), INSTANCE);
  }

  // ---- Without sharing, and with sharing that is not noticed. ----

  lemma UnsharedSpec(g: ResourceGraph, n: GraphNode)
    ensures WiredSpec(g, map[], n) == Spec(n.kind, Linked(g, n), n.template, n.vars, n.includeWhen, n.readyWhen, n.forEach)
  {
    assert PickVars(map[], n.vars) == n.vars;
    assert PickAll(map[], n.includeWhen) == n.includeWhen;
    assert PickAll(map[], n.readyWhen) == n.readyWhen;
  }

  lemma RightIsAdequate(g: ResourceGraph, w: World)
    requires RightReferences(g, w.eval) && w.specs == WiredSpecs(g, map[])
    ensures Adequate(w)
  {
    hide ReadsOnly;
    forall id | id in w.specs ensures AdequateSpec(w, id) {
      var n := if id == INSTANCE then InstanceOf(g) else g.nodes[id];
      UnsharedSpec(g, n);
      assert w.specs[id] == WiredSpec(g, map[], n) && RightNode(g, w.eval, n, id);
    }
  }

  /** What has right references has them once states are shared, if expressions with the same text agree. */
  lemma ConsistentAdequate(g: ResourceGraph, w: World)
    requires Built(g) && Consistent(g) && RightReferences(g, w.eval) && w.specs == WiredSpecs(g, SeenIn(g))
    ensures Adequate(w)
  {
    SharingUnnoticedIff(g);
    RightIsAdequate(g, w);
  }

  // ---- And only then. ----

  /** The expressions that are not readyWhen: conditions and fields, of the instance too. */
  ghost predicate Records(n: GraphNode, e: Expr) {
    e in n.includeWhen || e in SharedOf(n.vars)
  }

  /** No reference is superfluous: whatever suffices to evaluate the expression has all of them. */
  ghost predicate Tight(eval: Oracle, e: Expr) {
    forall ids | ReadsOnly(eval, e.original, ids) :: e.refs <= ids
  }

  ghost predicate TightReferences(g: ResourceGraph, eval: Oracle) {
    && (forall id, e | id in g.nodes && Records(g.nodes[id], e) :: Tight(eval, e))
    && (forall e | Records(InstanceOf(g), e) :: Tight(eval, e))
  }

  lemma ReadsBoth(eval: Oracle, text: string, a: set<string>, b: set<string>)
    requires ReadsOnly(eval, text, a) && ReadsOnly(eval, text, b)
    ensures ReadsOnly(eval, text, a * b)
  {
    forall c ensures eval(text, c) == eval(text, OnlyThese(c, a * b)) {
      assert OnlyThese(OnlyThese(c, a), b) == OnlyThese(c, a * b);
      assert eval(text, c) == eval(text, OnlyThese(c, a)) == eval(text, OnlyThese(OnlyThese(c, a), b));
    }
  }

  /** Where a shared expression comes from; `n` stands under `id`. */
  ghost predicate AskedAt(g: ResourceGraph, n: GraphNode, id: ID, e: Expr) {
    ((id in g.nodes && n == g.nodes[id]) || (id == INSTANCE && n == InstanceOf(g))) && e in Asked(n)
  }

  lemma AskedSomewhere(g: ResourceGraph, e: Expr) returns (n: GraphNode, id: ID)
    requires e in AllAsked(g)
    ensures AskedAt(g, n, id, e)
  {
    if e in SharedOf(g.instance.vars) {
      InstanceShares(g);
      n, id := InstanceOf(g), INSTANCE;
    } else {
      id :| id in g.nodes && e in Asked(g.nodes[id]);
      n := g.nodes[id];
    }
  }

  /** A recorded expression reads its references, which are all dependencies, and no fewer identifiers suffice. */
  lemma RecordsKnown(g: ResourceGraph, eval: Oracle, n: GraphNode, id: ID, e: Expr)
    requires RightReferences(g, eval) && TightReferences(g, eval) && AskedAt(g, n, id, e)
    ensures Records(n, e) || e in n.readyWhen
    ensures Records(n, e) ==> ReadsOnly(eval, e.original, e.refs) && Tight(eval, e) && e.refs <= Linked(g, n)
    ensures e in n.readyWhen ==> e.refs == {} && ReadsOnly(eval, e.original, {ReadySubject(n, id)}) && id in g.nodes
  {
    hide ReadsOnly, Linked, Tight;
    SharedOfVars(n.vars);
    assert RightNode(g, eval, n, id);
    if e in SharedOf(n.vars) {
      var v :| v in n.vars && !v.iteration && v.expr == e;
      assert RightExpr(g, eval, n, v.expr);
    }
  }

  /** Of two recorded expressions with the same text neither has references that the other has not. */
  lemma SameRecords(g: ResourceGraph, eval: Oracle, n: GraphNode, a: ID, e: Expr, m: GraphNode, b: ID, f: Expr)
    requires RightReferences(g, eval) && TightReferences(g, eval) && e.original == f.original
    requires AskedAt(g, n, a, e) && AskedAt(g, m, b, f) && Records(n, e) && Records(m, f)
    ensures e == f
  {
    RecordsKnown(g, eval, n, a, e);
    RecordsKnown(g, eval, m, b, f);
  }

  /** A recorded expression spelled like a readyWhen expression has no reference but the node of the latter. */
  lemma LikeReadyWhen(g: ResourceGraph, eval: Oracle, n: GraphNode, a: ID, e: Expr, m: GraphNode, b: ID, f: Expr)
    requires Built(g) && EACH !in g.nodes && RightReferences(g, eval) && TightReferences(g, eval) && e.original == f.original
    requires AskedAt(g, n, a, e) && AskedAt(g, m, b, f) && e in n.readyWhen && Records(m, f) && f.refs != {}
    ensures a in g.nodes && n == g.nodes[a] && f.refs == {a}
  {
    hide IsTopological, ReadsOnly;
    RecordsKnown(g, eval, n, a, e);
    RecordsKnown(g, eval, m, b, f);
    ReadsBoth(eval, f.original, f.refs, {ReadySubject(n, a)});
    assert f.refs <= f.refs * {ReadySubject(n, a)};
    assert EACH !in Linked(g, m);
  }

  /** Nodes whose expressions look at `b` come after it, so its readyWhen expressions are the first with their text. */
  lemma ReadyWhenFirst(g: ResourceGraph, eval: Oracle, b: ID, e: Expr)
    requires Built(g) && EACH !in g.nodes && RightReferences(g, eval) && TightReferences(g, eval)
    requires b in g.nodes && e in g.nodes[b].readyWhen
    requires forall m, a, f | AskedAt(g, m, a, f) && Records(m, f) && f.original == e.original :: f.refs == {b}
    ensures e.original in SeenIn(g) && SeenIn(g)[e.original].refs == {}
  {
    hide RightReferences, TightReferences, Asked, RememberAll, Records;
    BuiltKeys(g);
    assert b in Elems(g.order);
    var i :| 0 <= i < |g.order| && g.order[i] == b;
    var before := AskedBefore(g, i + 1);
    AskedBeforeAre(g, i + 1);
    RememberKeeps(map[], before);
    assert e in Asked(g.nodes[b]) by {
      ReadyWhenAsked(g.nodes[b], e);
    }
    var first := RememberAll(map[], before)[e.original];
    var j :| 0 <= j < i + 1 && first in Asked(g.nodes[g.order[j]]);
    FirstHasNone(g, eval, b, e, i, j, first);
    SeenInStarts(g, i + 1, e.original);
  }

  lemma ReadyWhenAsked(n: GraphNode, e: Expr)
    requires e in n.readyWhen
    ensures e in Asked(n)
  {
  }

  lemma FirstHasNone(g: ResourceGraph, eval: Oracle, b: ID, e: Expr, i: nat, j: nat, first: Expr)
    requires Built(g) && RightReferences(g, eval) && TightReferences(g, eval)
    requires j <= i < |g.order| && g.order[i] == b && Elems(g.order) <= g.nodes.Keys
    requires first in Asked(g.nodes[g.order[j]]) && first.original == e.original
    requires forall m, a, f | AskedAt(g, m, a, f) && Records(m, f) && f.original == e.original :: f.refs == {b}
    ensures first.refs == {}
  {
    hide Asked, Records, RightReferences, TightReferences;
    var a := g.order[j];
    assert AskedAt(g, g.nodes[a], a, first);
    NotLinkedBack(g, i, j);
    RecordsKnown(g, eval, g.nodes[a], a, first);
  }

  lemma NotLinkedBack(g: ResourceGraph, i: nat, j: nat)
    requires Built(g) && j <= i < |g.order| && Elems(g.order) <= g.nodes.Keys
    ensures g.order[i] !in Linked(g, g.nodes[g.order[j]])
  {
    assert g.order[i] in g.nodes && g.order[i] !in g.order[..j];
    assert forall d | d in DependencyGraph(g)[g.order[j]] :: d in g.order[..j];
  }

  /** What is remembered of the first nodes is what is remembered in the end. */
  lemma SeenInStarts(g: ResourceGraph, k: nat, o: string)
    requires Elems(g.order) <= g.nodes.Keys && k <= |g.order| && o in RememberAll(map[], AskedBefore(g, k))
    ensures o in SeenIn(g) && SeenIn(g)[o] == RememberAll(map[], AskedBefore(g, k))[o]
    decreases |g.order| - k
  {
    hide RememberAll, Asked;
    if k == |g.order| {
      RememberMore(map[], AskedBefore(g, k), SharedOf(g.instance.vars));
      RememberKeeps(RememberAll(map[], AskedBefore(g, k)), SharedOf(g.instance.vars));
    } else {
      var more := Asked(g.nodes[g.order[k]]);
      RememberMore(map[], AskedBefore(g, k), more);
      RememberKeeps(RememberAll(map[], AskedBefore(g, k)), more);
      SeenInStarts(g, k + 1, o);
    }
  }

  /** A recorded expression with a reference loses it if a readyWhen expression with the same text comes first. */
  lemma LostReference(g: ResourceGraph, w: World, n: GraphNode, a: ID, e: Expr, m: GraphNode, b: ID, f: Expr)
    requires Built(g) && EACH !in g.nodes && RightReferences(g, w.eval) && TightReferences(g, w.eval) && e.original == f.original
    requires AskedAt(g, n, a, e) && AskedAt(g, m, b, f) && e in n.readyWhen && Records(m, f) && f.refs != {}
    requires w.specs == WiredSpecs(g, SeenIn(g))
    ensures !Adequate(w)
  {
    hide RightReferences, TightReferences, Asked, IsTopological, SeenIn, Covered;
    LikeReadyWhen(g, w.eval, n, a, e, m, b, f);
    forall m', b', f' | AskedAt(g, m', b', f') && Records(m', f') && f'.original == e.original ensures f'.refs == {a} {
      SameRecords(g, w.eval, m, b, f, m', b', f');
    }
    ReadyWhenFirst(g, w.eval, a, e);
    RecordsKnown(g, w.eval, m, b, f);
    BuiltKeys(g);
    var shared := SeenIn(g)[f.original];
    SeenInIs(g);
    WiredRecord(g, w, m, b, f);
    NeedsReference(w, b, f, shared);
  }

  /** The wired spec has the shared expression in the place of the recorded one. */
  lemma WiredRecord(g: ResourceGraph, w: World, m: GraphNode, b: ID, f: Expr)
    requires Built(g) && AskedAt(g, m, b, f) && Records(m, f) && w.specs == WiredSpecs(g, SeenIn(g)) && f.original in SeenIn(g)
    ensures b in w.specs
    ensures var shared := SeenIn(g)[f.original];
            shared in w.specs[b].includeWhen || exists v :: v in w.specs[b].vars && !v.iteration && v.expr == shared
  {
    hide SeenIn, IsTopological;
    BuiltKeys(g);
    var seen := SeenIn(g);
    assert w.specs[b] == WiredSpec(g, seen, m);
    if f in m.includeWhen {
      var i :| 0 <= i < |m.includeWhen| && m.includeWhen[i] == f;
      assert PickAll(seen, m.includeWhen)[i] == seen[f.original];
    } else {
      SharedOfVars(m.vars);
      var v :| v in m.vars && !v.iteration && v.expr == f;
      var i :| 0 <= i < |m.vars| && m.vars[i] == v;
      var v' := PickVars(seen, m.vars)[i];
      assert v' in w.specs[b].vars && !v'.iteration && v'.expr == seen[f.original];
    }
  }

  lemma NeedsReference(w: World, b: ID, f: Expr, shared: Expr)
    requires Tight(w.eval, f) && f.refs != {} && shared.original == f.original && shared.refs == {} && b in w.specs
    requires shared in w.specs[b].includeWhen || exists v :: v in w.specs[b].vars && !v.iteration && v.expr == shared
    ensures !Adequate(w)
  {
    AdequateCovers(w, b, shared);
    hide ReadsOnly;
    assert !Covered(w, w.specs[b], shared);
  }

  lemma AdequateCovers(w: World, b: ID, e: Expr)
    requires b in w.specs && (e in w.specs[b].includeWhen || exists v :: v in w.specs[b].vars && !v.iteration && v.expr == e)
    ensures Adequate(w) ==> Covered(w, w.specs[b], e)
  {
    hide Covered, ReadsItself;
    if Adequate(w) {
      assert AdequateSpec(w, b);
    }
  }

  /**
    Where the graph itself has right references and none is superfluous, the shared ones are right exactly if
    expressions with the same text have the same references. Hence results are determined by the condition of
    `Consistent`, which only looks at what the builder hands over.
   */
  lemma AdequateIffConsistent(g: ResourceGraph, w: World)
    requires Built(g) && EACH !in g.nodes && RightReferences(g, w.eval) && TightReferences(g, w.eval)
    requires w.specs == WiredSpecs(g, SeenIn(g))
    ensures Adequate(w) <==> Consistent(g)
  {
    hide RightReferences, TightReferences, Asked, IsTopological, SeenIn, AllAsked;
    if Consistent(g) {
      ConsistentAdequate(g, w);
    } else {
      var e, f :| e in AllAsked(g) && f in AllAsked(g) && e.original == f.original && e != f;
      var n, a := AskedSomewhere(g, e);
      var m, b := AskedSomewhere(g, f);
      RecordsKnown(g, w.eval, n, a, e);
      RecordsKnown(g, w.eval, m, b, f);
      if Records(n, e) && Records(m, f) {
        SameRecords(g, w.eval, n, a, e, m, b, f);
      } else if Records(m, f) {
        LostReference(g, w, n, a, e, m, b, f);
      } else if Records(n, e) {
        LostReference(g, w, m, b, f, n, a, e);
      }
    }
  }

  // ---- readyWhen of external collections. ----

  /**
    The builder lets readyWhen expressions of an external collection refer to the collection, but they are evaluated with
    `each` item. So they see nothing: the collection is ready if nothing is observed of it, or if all of them are true
    without looking at anything.
   */
  lemma ExternalCollectionReady(g: ResourceGraph, w: World, desired: Desired, id: ID)
    requires Built(g) && Consistent(g) && RightReferences(g, w.eval) && w.specs == WiredSpecs(g, SeenIn(g)) && WellWired(w)
    requires id in g.nodes && g.nodes[id].kind.ExternalCollection? && id != EACH
    ensures id in w.specs
    ensures ObservedReady(w, desired, id) <==>
            Observed(w, id) == [] || forall e | e in g.nodes[id].readyWhen :: w.eval(e.original, map[]) == Value(Bool(true))
  {
    hide IsTopological, SeenIn, Consistent, WellWired, ReadsOnly, ObservedReady, WiredSpec;
    SharingUnnoticedIff(g);
    UnsharedSpec(g, g.nodes[id]);
    assert w.specs[id] == WiredSpec(g, map[], g.nodes[id]);
    assert RightNode(g, w.eval, g.nodes[id], id);
    ReadyForNothing(w, desired, id);
  }

  lemma ReadyForNothing(w: World, desired: Desired, id: ID)
    requires WellWired(w) && id in w.specs && w.specs[id].kind.ExternalCollection? && id != EACH
    requires forall e | e in w.specs[id].readyWhen :: ReadsOnly(w.eval, e.original, {id})
    ensures ObservedReady(w, desired, id) <==>
            Observed(w, id) == [] || forall e | e in w.specs[id].readyWhen :: w.eval(e.original, map[]) == Value(Bool(true))
  {
    hide WellWired, ReadsOnly;
    var items := Observed(w, id);
    forall e, o | e in w.specs[id].readyWhen ensures HoldsForEach(w, e, o) <==> w.eval(e.original, map[]) == Value(Bool(true)) {
      SeesNothing(w.eval, e.original, id, o);
    }
    if items != [] {
      assert items[0] in items;
    }
  }

  lemma SeesNothing(eval: Oracle, text: string, id: ID, o: Json)
    requires ReadsOnly(eval, text, {id}) && id != EACH
    ensures eval(text, map[EACH := o]) == eval(text, map[])
  {
    var c: Ctx := map[EACH := o];
    assert OnlyThese(c, {id}) == OnlyThese(map[], {id}) == map[];
    assert eval(text, c) == eval(text, OnlyThese(c, {id}));
    assert eval(text, map[]) == eval(text, OnlyThese(map[], {id}));
  }
}
