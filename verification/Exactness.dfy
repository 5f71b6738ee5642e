/**
  The order in which items are observed shows in what a run emits, wherever a used expression refers to a collection of
  which different items are observed: an oracle that tells the orders apart is given.
 */
module Exactness {
  import opened Sets
  import opened Trees
  import opened Graphs
  import opened Resolver
  import opened Objects
  import opened Expansion
  import opened World
  import opened Adequacy
  import opened Reconcile
  import opened Faults
  import opened Runs
  import opened Reordering
  import opened Walks
  import opened Meanings
  import opened Selectors
  import Naming

  // ---- There is a result of every run. ----

  lemma SafeOneMore(w: World, desired: Desired, id: ID, before: map<string, Composed>, out: map<string, Composed>)
    requires WellWired(w) && Managed(w, id) && id in desired && Step(w, desired, id) == Some(desired[id])
    requires SafeOutput(w, desired, before, out)
    ensures SafeOutput(w, desired, before, out + Emitted(w, desired, id))
  {
    hide Step, ObservedReady, ResourceName, Entries;
    var more := Emitted(w, desired, id);
    forall name | name in out + more && !(name in before && (out + more)[name] == before[name])
      ensures exists id, k :: SafeEntry(w, desired, id, k, name, (out + more)[name])
    {
      if name in more {
        var k := EntryComesFrom(w, id, desired[id], ReadyStateOf(w, desired, id), name);
        assert SafeEntry(w, desired, id, k, name, (out + more)[name]);
      } else {
        var other, k :| SafeEntry(w, desired, other, k, name, out[name]);
        assert SafeEntry(w, desired, other, k, name, (out + more)[name]);
      }
    }
  }

  /** What a run over the first `k` nodes ends with. */
  lemma {:induction false} RunUpTo(w: World, order: seq<ID>, k: nat, before: map<string, Composed>)
    returns (desired: Desired, out: map<string, Composed>)
    requires WellWired(w) && Ordered(w, order) && ValidIDs(w) && k <= |order|
    ensures ResolvedUpTo(w, order, k, desired) && SafeOutput(w, desired, before, out)
    ensures Output(w, desired, Elems(order[..k]), before, out)
  {
    hide WellWired, Ordered, ValidIDs, Step, SafeOutput, Output, Adequate, Emitted;
    if k == 0 {
      desired, out := map[], before;
      NothingSafe(w, desired, before);
      NothingYet(w, desired, before);
      assert Elems(order[..0]) == {};
    } else {
      desired, out := RunUpTo(w, order, k - 1, before);
      var id := order[k - 1];
      PrefixDownward(w, order, k - 1);
      if Managed(w, id) && Step(w, desired, id).Some? {
        var objs := Step(w, desired, id).value;
        ResolvedOneMore(w, order, k - 1, desired, objs);
        SafeKept(w, order, k - 1, desired, objs, before, out);
        OutputKept(w, order, k - 1, desired, objs, before, out);
        StepKept(w, order, k - 1, desired, objs, id);
        desired := desired[id := objs];
        OutputOneMore(w, order, k - 1, desired, before, out);
        SafeOneMore(w, desired, id, before, out);
        out := out + Emitted(w, desired, id);
      } else {
        ResolvedNoMore(w, order, k - 1, desired);
        OutputNoMore(w, order, k - 1, desired, before, out);
      }
    }
  }

  lemma NothingYet(w: World, desired: Desired, before: map<string, Composed>)
    requires WellWired(w)
    ensures Output(w, desired, {}, before, before)
  {
  }

  lemma RunExists(w: World, order: seq<ID>, before: map<string, Composed>) returns (desired: Desired, out: map<string, Composed>)
    requires WellWired(w) && Ordered(w, order) && ValidIDs(w) && Adequate(w)
    ensures SafeOutput(w, desired, before, out) && RunResult(w, before, desired, out)
  {
    hide Step, Adequate, Output, SafeOutput, WellWired;
    desired, out := RunUpTo(w, order, |order|, before);
    assert order[..|order|] == order;
    assert Elems(order) == IgnoreGraph(w).Keys == w.specs.Keys;
  }

  // ---- The oracle. ----

  /** The first of the items that `c` stands for is `x`. */
  predicate FirstIs(ctx: Ctx, c: ID, x: Json) {
    c in ctx && ctx[c].Arr? && ctx[c].items != [] && ctx[c].items[0] == x
  }

  /** The texts of dimensions, and of the fields of external collections, whose selectors are made of strings. */
  datatype Texts = Texts(dimensions: set<string>, labels: set<string>)

  function Good(texts: Texts, text: string): Json {
    if text in texts.dimensions then Arr([Null]) else if text in texts.labels then Str("") else Bool(true)
  }

  /** Everything has a constant value, except that `told` has none until the first item of `c` is `x`. */
  function Telling(told: string, c: ID, x: Json, texts: Texts): Oracle {
    (text: string, ctx: Ctx) => if text == told && !FirstIs(ctx, c, x) then Pending else Value(Good(texts, text))
  }

  lemma TellingMonotone(told: string, c: ID, x: Json, texts: Texts)
    ensures Monotone(Telling(told, c, x, texts))
  {
  }

  lemma TellingReads(told: string, c: ID, x: Json, texts: Texts, text: string, ids: set<string>)
    requires text == told ==> c in ids
    ensures ReadsOnly(Telling(told, c, x, texts), text, ids)
  {
    var eval := Telling(told, c, x, texts);
    forall ctx ensures eval(text, ctx) == eval(text, OnlyThese(ctx, ids)) {
    }
  }

  // ---- Graphs in which everything can have a value. ----

  predicate HasExpr(spec: Spec, e: Expr) {
    e in spec.includeWhen || e in spec.readyWhen || (exists v :: v in spec.vars && v.expr == e)
    || exists f :: f in spec.forEach && f.expr == e
  }

  function DimensionTexts(w: World): set<string> {
    set id, f | id in w.specs && f in w.specs[id].forEach :: f.expr.original
  }

  function LabelTexts(w: World): set<string> {
    set id, v | id in w.specs && w.specs[id].kind.ExternalCollection? && v in w.specs[id].vars :: v.expr.original
  }

  function TextsOf(w: World): Texts {
    Texts(DimensionTexts(w), LabelTexts(w))
  }

  /** References are dependencies or, in fields of items, forEach variables; readyWhen has none recorded. */
  predicate ProperReferences(w: World, spec: Spec) {
    && (forall e | e in spec.includeWhen :: e.refs <= spec.deps)
    && (forall v | v in spec.vars && !v.iteration :: v.expr.refs <= spec.deps)
    && (forall v, r | v in spec.vars && v.iteration && r in v.expr.refs && r in w.specs :: r in spec.deps)
    && (forall f | f in spec.forEach :: f.expr.refs <= spec.deps)
    && (forall e | e in spec.readyWhen :: e.refs == {})
  }

  /** The identity of an external node can be filled in, and strings in the place of all expressions give a selector. */
  ghost predicate ProperSelector(spec: Spec) {
    && (spec.kind.External? ==> Renders(spec.(vars := IdentityVars(spec.vars))))
    && (spec.kind.ExternalCollection? ==> forall data | Covers(spec.vars, data) && AllStrings(spec.vars, data) ::
          var obj := Rendered(spec.template, Descriptors(spec.vars), data); obj.Some? ==> HasSelector(obj.value))
  }

  predicate AllStrings(vars: seq<Variable>, data: Data) {
    forall v | v in vars :: v.expr.original in data && data[v.expr.original].Str?
  }

  /**
    Conditions are boolean, dimensions lists and labels strings, so no text is two of these; forEach variables are no nodes.
    The builder makes sure of it but for labels, which it does not check against a type.
   */
  ghost predicate ProperSpec(w: World, spec: Spec) {
    && ProperReferences(w, spec) && Renders(spec) && ProperSelector(spec)
    && (forall e | e in spec.includeWhen || e in spec.readyWhen :: e.original !in DimensionTexts(w) + LabelTexts(w))
    && (spec.kind.Collection? <==> spec.forEach != []) && forall f | f in spec.forEach :: f.name !in w.specs
  }

  /** The same text has the same references everywhere, and collections may have an item. */
  ghost predicate Proper(w: World) {
    && (forall id | id in w.specs :: ProperSpec(w, w.specs[id])) && w.maxCollectionSize >= 1
    && DimensionTexts(w) !! LabelTexts(w)
    && forall a, b, e, f | a in w.specs && b in w.specs && HasExpr(w.specs[a], e) && HasExpr(w.specs[b], f)
         && e.original == f.original :: e.refs == f.refs
  }

  predicate AllObserved(w: World) {
    forall id | id in w.specs :: Observed(w, id) != []
  }

  // ---- The worlds in which everything but one expression has a value. ----

  /** The oracle of the world tells by the expression `e`, which refers to `c`, whether `x` is the first item of `c`. */
  ghost predicate Told(w: World, e: Expr, c: ID, x: Json) {
    && WellWired(w) && Proper(w) && AllObserved(w) && w.eval == Telling(e.original, c, x, TextsOf(w))
    && c in e.refs && c in w.specs && IsMany(w.specs[c].kind) && exists id :: id in w.specs && HasExpr(w.specs[id], e)
  }

  lemma ToldValue(w: World, e: Expr, c: ID, x: Json, text: string, ctx: Ctx)
    requires Told(w, e, c, x)
    ensures WellWired(w)
    ensures w.eval(text, ctx) ==
            if text == e.original && !FirstIs(ctx, c, x) then Pending else Value(Good(TextsOf(w), text))
  {
    hide Proper;
  }

  lemma SpecProper(w: World, e: Expr, c: ID, x: Json, id: ID)
    requires Told(w, e, c, x) && id in w.specs
    ensures ProperSpec(w, w.specs[id]) && Observed(w, id) != [] && w.specs[id].deps <= w.specs.Keys
    ensures forall f | HasExpr(w.specs[id], f) && f.original == e.original :: f.refs == e.refs
    ensures forall f | f in w.specs[id].readyWhen :: f.original != e.original
  {
    hide ProperSpec;
    var a :| a in w.specs && HasExpr(w.specs[a], e);
    forall f | HasExpr(w.specs[id], f) && f.original == e.original ensures f.refs == e.refs {
    }
    assert ProperSpec(w, w.specs[id]);
    forall f | f in w.specs[id].readyWhen ensures f.original != e.original {
      assert HasExpr(w.specs[id], f);
      assert f.refs == {} by {
        ReadyWhenNone(w, w.specs[id], f);
      }
    }
  }

  lemma ReadyWhenNone(w: World, spec: Spec, f: Expr)
    requires ProperSpec(w, spec) && f in spec.readyWhen
    ensures f.refs == {}
  {
  }

  lemma ToldReads(w: World, e: Expr, c: ID, x: Json, id: ID, f: Expr)
    requires Told(w, e, c, x) && id in w.specs && HasExpr(w.specs[id], f)
    ensures ReadsOnly(w.eval, f.original, f.refs)
  {
    hide Proper, ReadsOnly, HasExpr, WellWired;
    SpecProper(w, e, c, x, id);
    TellingReads(e.original, c, x, TextsOf(w), f.original, f.refs);
  }

  lemma ToldAdequate(w: World, e: Expr, c: ID, x: Json)
    requires Told(w, e, c, x)
    ensures Adequate(w) && ItemsReadReferences(w) && Monotone(w.eval)
  {
    hide Told, ReadsOnly, Monotone;
    forall id | id in w.specs ensures AdequateSpec(w, id) {
      ToldAdequateSpec(w, e, c, x, id);
    }
    forall n, f | ItemUsed(w, n, f) ensures ReadsOnly(w.eval, f.original, f.refs) {
      ToldReads(w, e, c, x, n, f);
    }
    TellingMonotone(e.original, c, x, TextsOf(w));
    assert w.eval == Telling(e.original, c, x, TextsOf(w)) by {
      ToldEval(w, e, c, x);
    }
  }

  lemma ToldEval(w: World, e: Expr, c: ID, x: Json)
    requires Told(w, e, c, x)
    ensures w.eval == Telling(e.original, c, x, TextsOf(w)) && WellWired(w)
  {
  }

  lemma ToldAdequateSpec(w: World, e: Expr, c: ID, x: Json, id: ID)
    requires Told(w, e, c, x) && id in w.specs
    ensures AdequateSpec(w, id)
  {
    hide Told, ReadsOnly;
    SpecProper(w, e, c, x, id);
    forall f | HasExpr(w.specs[id], f) ensures ReadsOnly(w.eval, f.original, f.refs) {
      ToldReads(w, e, c, x, id, f);
    }
    ToldEval(w, e, c, x);
    forall f | f in w.specs[id].readyWhen ensures ReadsOnly(w.eval, f.original, {id}) {
      TellingReads(e.original, c, x, TextsOf(w), f.original, {id});
    }
    assert forall f | f in w.specs[id].forEach :: HasExpr(w.specs[id], f.expr);
    assert forall v | v in w.specs[id].vars :: HasExpr(w.specs[id], v.expr);
  }

  // ---- Everything is resolved if `x` is the first item of the collection. ----

  ghost predicate Bright(w: World, e: Expr, c: ID, x: Json) {
    Told(w, e, c, x) && Observed(w, c)[0] == x
  }

  lemma BrightFresh(w: World, e: Expr, c: ID, x: Json, f: Expr)
    requires Bright(w, e, c, x)
    ensures WellWired(w) && Fresh(w, f) == Value(Good(TextsOf(w), f.original))
  {
    hide Proper;
    assert Observed(w, c) != [];
    assert FirstIs(FullContext(w), c, x);
  }

  /** Expressions other than `e` always have a value. */
  lemma OthersGood(w: World, e: Expr, c: ID, x: Json, text: string, ctx: Ctx)
    requires Told(w, e, c, x) && text != e.original
    ensures w.eval(text, ctx) == Value(Good(TextsOf(w), text))
  {
    hide Proper;
  }

  lemma ReadyOnceResolved(w: World, e: Expr, c: ID, x: Json, desired: Desired, id: ID)
    requires Told(w, e, c, x) && id in w.specs
    requires w.specs[id].kind.Collection? ==> id in desired && |desired[id]| <= 1
    ensures WellWired(w) && ObservedReady(w, desired, id)
  {
    hide Told;
    ToldEval(w, e, c, x);
    SpecProper(w, e, c, x, id);
    forall f | f in w.specs[id].readyWhen ensures forall ctx :: w.eval(f.original, ctx) == Value(Bool(true)) {
      forall ctx ensures w.eval(f.original, ctx) == Value(Bool(true)) {
        OthersGood(w, e, c, x, f.original, ctx);
      }
    }
    assert |Observed(w, id)| >= 1;
  }

  lemma {:induction false} OnesProduct(lens: seq<nat>)
    requires forall i | 0 <= i < |lens| :: lens[i] == 1
    ensures NoneEmpty(lens) && Product(lens) == 1
  {
    if lens != [] {
      OnesProduct(lens[1..]);
    }
  }

  function Single(f: ForEach): Dimension {
    Dimension(f.name, [Null])
  }

  function Singles(forEach: seq<ForEach>): (r: seq<Dimension>)
    ensures |r| == |forEach|
  {
    seq(|forEach|, i requires 0 <= i < |forEach| => Single(forEach[i]))
  }

  lemma {:induction false} SinglesOf(w: World, forEach: seq<ForEach>)
    requires WellWired(w) && forall f | f in forEach :: Fresh(w, f.expr) == Value(Arr([Null]))
    ensures DimensionsOf(w, forEach) == Available(Singles(forEach))
  {
    hide Fresh, WellWired;
    if forEach != [] {
      assert forEach[0] in forEach;
      SinglesOf(w, forEach[1..]);
      assert Singles(forEach) == [Single(forEach[0])] + Singles(forEach[1..]);
    }
  }

  /** There is one binding, and it binds forEach variables only. */
  lemma OneBinding(w: World, id: ID) returns (b: Binding)
    requires WellWired(w) && id in w.specs && w.specs[id].forEach != [] && w.maxCollectionSize >= 1
    requires forall f | f in w.specs[id].forEach :: Fresh(w, f.expr) == Value(Arr([Null]))
    ensures Bindings(w, id) == Some([b]) && forall y | y in b :: exists f :: f in w.specs[id].forEach && f.name == y
  {
    hide Fresh, WellWired;
    var forEach := w.specs[id].forEach;
    var dims := Singles(forEach);
    SinglesOf(w, forEach);
    OnesProduct(Lengths(dims));
    b := Combination(dims, 0);
    RankOfDigits(Lengths(dims), 0);
    BoundNames(dims, Digits(Lengths(dims), 0));
    assert Bindings(w, id).value == [b];
    forall y | y in b ensures exists f :: f in forEach && f.name == y {
      var d :| d in dims && d.name == y;
      var i :| 0 <= i < |dims| && dims[i] == d;
      assert forEach[i] in forEach && forEach[i].name == y;
    }
  }

  lemma BrightBase(w: World, e: Expr, c: ID, x: Json, id: ID)
    requires Bright(w, e, c, x) && id in w.specs
    ensures WellWired(w) && BaseData(w, w.specs[id].vars).Some?
    ensures Originals(w.specs[id].vars, false) <= BaseData(w, w.specs[id].vars).value.Keys
  {
    hide Bright, WellWired, FullContext;
    ToldEval(w, e, c, x) by {
      BrightTold(w, e, c, x);
    }
    var vars := w.specs[id].vars;
    forall o | o in Originals(vars, false) ensures w.eval(o, FullContext(w)).Value? {
      var v :| v in vars && !v.iteration && v.expr.original == o;
      BrightFresh(w, e, c, x, v.expr);
    }
  }

  lemma BrightTold(w: World, e: Expr, c: ID, x: Json)
    requires Bright(w, e, c, x)
    ensures Told(w, e, c, x) && c in w.observed && WellWired(w) && w.observed[c] != [] && w.observed[c][0] == x
    ensures IsMany(w.specs[c].kind) && c in e.refs && w.maxCollectionSize >= 1
  {
    assert Observed(w, c) != [];
  }

  /** A field of an item has its value too, for what it refers to is in its context. */
  lemma BrightItemField(w: World, e: Expr, c: ID, x: Json, id: ID, b: Binding, v: Variable)
    requires Bright(w, e, c, x) && id in w.specs && v in w.specs[id].vars && v.iteration && c !in b
    ensures WellWired(w) && w.eval(v.expr.original, IterationContext(w, id, b)).Value?
  {
    hide Told, WellWired;
    BrightTold(w, e, c, x);
    ToldEval(w, e, c, x);
    if v.expr.original == e.original {
      assert HasExpr(w.specs[id], v.expr);
      SpecProper(w, e, c, x, id);
      assert c in v.expr.refs && c in w.specs[id].deps;
      assert c in IterationRefs(w.specs[id].vars);
      assert FirstIs(IterationContext(w, id, b), c, x);
    }
  }

  lemma BrightItem(w: World, e: Expr, c: ID, x: Json, id: ID, base: Data, b: Binding)
    requires Bright(w, e, c, x) && id in w.specs && c !in b
    requires Originals(w.specs[id].vars, false) <= base.Keys
    ensures WellWired(w) && ItemOf(w, id, base, b, 0).Some?
  {
    hide Bright, WellWired, IterationContext, Renders, Originals, Rendered, Proper;
    BrightTold(w, e, c, x);
    var vars := w.specs[id].vars;
    forall o | o in Originals(vars, true) ensures w.eval(o, IterationContext(w, id, b)).Value? {
      OriginalOf(vars, true, o);
      var v :| v in vars && v.iteration && v.expr.original == o;
      BrightItemField(w, e, c, x, id, b, v);
    }
    SpecProper(w, e, c, x, id);
    ItemCovers(w, id, base, b, ItemData(w, id, base, b).value);
    CoveredRenders(w.specs[id], ItemData(w, id, base, b).value);
  }

  lemma OriginalOf(vars: seq<Variable>, iteration: bool, o: string)
    requires o in Originals(vars, iteration)
    ensures exists v :: v in vars && v.iteration == iteration && v.expr.original == o
  {
  }

  lemma BrightForEach(w: World, e: Expr, c: ID, x: Json, id: ID)
    requires Bright(w, e, c, x) && id in w.specs
    ensures WellWired(w) && forall f | f in w.specs[id].forEach :: Fresh(w, f.expr) == Value(Arr([Null]))
  {
    hide Bright, WellWired, Fresh;
    BrightTold(w, e, c, x);
    forall f | f in w.specs[id].forEach ensures Fresh(w, f.expr) == Value(Arr([Null])) {
      BrightFresh(w, e, c, x, f.expr);
      assert f.expr.original in DimensionTexts(w);
    }
  }

  lemma BrightObjects(w: World, e: Expr, c: ID, x: Json, id: ID)
    requires Bright(w, e, c, x) && Managed(w, id)
    ensures WellWired(w) && ObjectsOf(w, id).Some? && |ObjectsOf(w, id).value| == 1
  {
    hide Bright, WellWired, ProperSpec, Told, ObjectsOf, Originals, Renders, BaseData;
    BrightTold(w, e, c, x);
    BrightBase(w, e, c, x, id);
    SpecProper(w, e, c, x, id);
    var base := BaseData(w, w.specs[id].vars).value;
    if w.specs[id].kind.Collection? {
      BrightCollection(w, e, c, x, id, base);
    } else {
      ProperRenders(w, w.specs[id]);
      BaseCovers(w, w.specs[id], base);
      CoveredRenders(w.specs[id], base);
      OneObject(w, id, base);
    }
  }

  lemma OneObject(w: World, id: ID, base: Data)
    requires WellWired(w) && id in w.specs && !w.specs[id].kind.Collection? && BaseData(w, w.specs[id].vars) == Some(base)
    requires Rendered(w.specs[id].template, Descriptors(w.specs[id].vars), base).Some?
    ensures ObjectsOf(w, id).Some? && |ObjectsOf(w, id).value| == 1
  {
    hide WellWired, BaseData, Rendered;
  }

  lemma BrightCollection(w: World, e: Expr, c: ID, x: Json, id: ID, base: Data)
    requires Bright(w, e, c, x) && id in w.specs && w.specs[id].kind.Collection?
    requires WellWired(w) && BaseData(w, w.specs[id].vars) == Some(base) && Originals(w.specs[id].vars, false) <= base.Keys
    ensures ObjectsOf(w, id).Some? && |ObjectsOf(w, id).value| == 1
  {
    hide Bright, WellWired, Fresh, Originals, ProperSpec, BaseData, Bindings, ItemOf, ItemsOf, Told, DistinctIdentities;
    BrightTold(w, e, c, x);
    SpecProper(w, e, c, x, id);
    BrightForEach(w, e, c, x, id);
    CollectionHasDimensions(w, w.specs[id]);
    var b := OneBinding(w, id);
    NotBound(w, id, c, b);
    BrightItem(w, e, c, x, id, base, b);
    OneItem(w, id, base, b);
    OneDistinct(ItemsOf(w, id, base, [b]).value);
  }

  lemma CollectionHasDimensions(w: World, spec: Spec)
    requires ProperSpec(w, spec)
    ensures spec.kind.Collection? <==> spec.forEach != []
  {
  }

  lemma ProperRenders(w: World, spec: Spec)
    requires ProperSpec(w, spec)
    ensures Renders(spec)
  {
  }

  lemma OneDistinct(objs: seq<Json>)
    requires |objs| == 1
    ensures DistinctIdentities(objs)
  {
  }

  lemma NotBound(w: World, id: ID, c: ID, b: Binding)
    requires id in w.specs && ProperSpec(w, w.specs[id]) && c in w.specs
    requires forall y | y in b :: exists f :: f in w.specs[id].forEach && f.name == y
    ensures c !in b
  {
  }

  lemma OneItem(w: World, id: ID, base: Data, b: Binding)
    requires WellWired(w) && id in w.specs && ItemOf(w, id, base, b, 0).Some?
    ensures ItemsOf(w, id, base, [b]) == Some([ItemOf(w, id, base, b, 0).value])
  {
    hide ItemOf, WellWired;
    var bs, item := [b], ItemOf(w, id, base, b, 0).value;
    assert bs[..|bs| - 1] == [];
    assert ItemsOf(w, id, base, bs[..|bs| - 1]) == Some([]);
    assert [] + [item] == [item];
  }

  lemma BrightConditions(w: World, e: Expr, c: ID, x: Json, desired: Desired, id: ID)
    requires Bright(w, e, c, x) && id in w.specs && !w.specs[id].kind.Instance? && WellWired(w)
    requires forall d | d in w.specs[id].deps && d != INSTANCE :: ObservedReady(w, desired, d)
    ensures OwnConditions(w, desired, id)
  {
    hide Bright, WellWired, Fresh, ObservedReady, Told;
    BrightTold(w, e, c, x);
    SpecProper(w, e, c, x, id);
    forall f | f in w.specs[id].includeWhen ensures Holds(w, f) {
      BrightFresh(w, e, c, x, f);
    }
  }

  /** One more node: what it depends on is included and ready, so it is included, and if it is managed, resolved. */
  lemma BrightNode(w: World, e: Expr, c: ID, x: Json, desired: Desired, id: ID)
    requires Bright(w, e, c, x) && WellWired(w) && Solves(w, desired) && id in w.specs && !w.specs[id].kind.Instance?
    requires forall d | d in w.specs[id].deps && d != INSTANCE :: ObservedReady(w, desired, d)
    requires forall d | d in w.specs[id].deps :: Included(w, desired, d)
    ensures Included(w, desired, id) && ObservedReady(w, desired, id)
    ensures Managed(w, id) ==> id in desired && |desired[id]| == 1
  {
    hide Bright, WellWired, Fresh, ObservedReady, Included, OwnConditions, ObjectsOf, Told;
    BrightTold(w, e, c, x);
    BrightConditions(w, e, c, x, desired, id);
    IncludedStep(w, desired, id);
    if Managed(w, id) {
      BrightObjects(w, e, c, x, id);
      assert Step(w, desired, id) == ObjectsOf(w, id);
    }
    ReadyOnceResolved(w, e, c, x, desired, id);
  }

  lemma InstanceIncluded(w: World, desired: Desired)
    requires WellWired(w)
    ensures INSTANCE in w.specs && Included(w, desired, INSTANCE)
  {
    hide OwnConditions;
    InstanceConditions(w, desired);
    forall m | m in w.specs && Reaches(IgnoreGraph(w), INSTANCE, m) ensures OwnConditions(w, desired, m) {
      if m != INSTANCE {
        var d := ReachesFirst(IgnoreGraph(w), INSTANCE, m);
      }
    }
  }

  lemma {:induction false} AllBright(w: World, order: seq<ID>, k: nat, e: Expr, c: ID, x: Json, desired: Desired)
    requires Bright(w, e, c, x) && WellWired(w) && Solves(w, desired) && Ordered(w, order) && k <= |order|
    ensures forall id | id in order[..k] && id in w.specs ::
              && Included(w, desired, id) && (id != INSTANCE ==> ObservedReady(w, desired, id))
              && (Managed(w, id) ==> id in desired && |desired[id]| == 1)
  {
    hide Bright, WellWired, ObservedReady, Included, Solves, Ordered;
    if k > 0 {
      AllBright(w, order, k - 1, e, c, x, desired);
      PrefixDownward(w, order, k - 1);
      var id := order[k - 1];
      assert order[..k] == order[..k - 1] + [id];
      InstanceKind(w, id);
      if id == INSTANCE {
        InstanceIncluded(w, desired);
      } else {
        BrightNode(w, e, c, x, desired, id);
      }
    }
  }

  lemma InstanceKind(w: World, id: ID)
    requires WellWired(w) && id in w.specs
    ensures w.specs[id].kind.Instance? <==> id == INSTANCE
    ensures w.specs[id].deps <= w.specs.Keys
  {
  }

  // ---- Nothing fails. ----

  lemma {:induction false} AvailableIsValue(w: World, forEach: seq<ForEach>)
    requires WellWired(w) && DimensionsOf(w, forEach).Available?
    ensures forall f | f in forEach :: Fresh(w, f.expr).Value?
  {
    hide Fresh, WellWired;
    if forEach != [] {
      AvailableIsValue(w, forEach[1..]);
      assert forEach == [forEach[0]] + forEach[1..];
    }
  }

  lemma ToldDimension(w: World, e: Expr, c: ID, x: Json, id: ID, f: ForEach)
    requires Told(w, e, c, x) && id in w.specs && f in w.specs[id].forEach
    ensures WellWired(w) && (Fresh(w, f.expr).Pending? || Fresh(w, f.expr) == Value(Arr([Null])))
  {
    hide Told, WellWired, FullContext, FirstIs;
    ToldEval(w, e, c, x);
    ToldValue(w, e, c, x, f.expr.original, FullContext(w));
    assert f.expr.original in DimensionTexts(w);
  }

  lemma ToldDimensions(w: World, e: Expr, c: ID, x: Json, id: ID)
    requires Told(w, e, c, x) && id in w.specs && DimensionsOf(w, w.specs[id].forEach).Available? && WellWired(w)
    ensures DimensionsOf(w, w.specs[id].forEach) == Available(Singles(w.specs[id].forEach))
    ensures NoneEmpty(Lengths(Singles(w.specs[id].forEach))) && Product(Lengths(Singles(w.specs[id].forEach))) == 1
  {
    hide Told, WellWired, Fresh;
    AvailableIsValue(w, w.specs[id].forEach);
    forall f | f in w.specs[id].forEach ensures Fresh(w, f.expr) == Value(Arr([Null])) {
      ToldDimension(w, e, c, x, id, f);
    }
    SinglesOf(w, w.specs[id].forEach);
    OnesProduct(Lengths(Singles(w.specs[id].forEach)));
  }

  lemma ToldBounded(w: World, e: Expr, c: ID, x: Json, id: ID)
    requires Told(w, e, c, x) && id in w.specs
    ensures WellWired(w) && BoundedDimensions(w, w.specs[id])
    ensures Bindings(w, id).Some? ==> |Bindings(w, id).value| <= 1
  {
    hide Told, WellWired, Fresh, DimensionsOf;
    ToldEval(w, e, c, x);
    ToldMax(w, e, c, x);
    forall f | f in w.specs[id].forEach && Fresh(w, f.expr).Value? ensures Fresh(w, f.expr).v.Arr? {
      ToldDimension(w, e, c, x, id, f);
    }
    if DimensionsOf(w, w.specs[id].forEach).Available? {
      ToldDimensions(w, e, c, x, id);
    }
  }

  lemma ToldMax(w: World, e: Expr, c: ID, x: Json)
    requires Told(w, e, c, x)
    ensures w.maxCollectionSize >= 1
  {
    hide ProperSpec;
  }

  lemma ToldApart(w: World, e: Expr, c: ID, x: Json, id: ID)
    requires Told(w, e, c, x) && id in w.specs
    ensures WellWired(w) && ItemsApart(w, id)
  {
    hide Told, WellWired, Bindings, ItemOf, BaseData;
    ToldEval(w, e, c, x);
    ToldBounded(w, e, c, x, id);
    match (BaseData(w, w.specs[id].vars), Bindings(w, id)) {
      case (Some(base), Some(bindings)) =>
        if ItemsOf(w, id, base, bindings).Some? {
          ItemsOfEach(w, id, base, bindings);
        }
      case _ =>
    }
  }

  lemma ToldConditions(w: World, e: Expr, c: ID, x: Json, id: ID)
    requires Told(w, e, c, x) && id in w.specs
    ensures BooleanConditions(w, w.specs[id]) && Renders(w.specs[id])
  {
    hide Told, Renders, FirstIs, DimensionTexts;
    SpecProper(w, e, c, x, id);
    forall f, ctx | f in w.specs[id].includeWhen || f in w.specs[id].readyWhen
      ensures w.eval(f.original, ctx) in {Pending, Value(Bool(true))}
    {
      ToldValue(w, e, c, x, f.original, ctx);
    }
  }

  lemma ToldFaultless(w: World, e: Expr, c: ID, x: Json)
    requires Told(w, e, c, x)
    ensures WellWired(w) && Faultless(w)
  {
    hide Told, WellWired, BooleanConditions, BoundedDimensions, Renders, ItemsApart;
    ToldEval(w, e, c, x);
    forall id | id in w.specs
      ensures BooleanConditions(w, w.specs[id]) && BoundedDimensions(w, w.specs[id]) && Renders(w.specs[id]) && ItemsApart(w, id)
    {
      ToldConditions(w, e, c, x, id);
      ToldBounded(w, e, c, x, id);
      ToldApart(w, e, c, x, id);
    }
  }

  /** Selectors can be read off, whatever has been found so far. */
  lemma ToldSelectors(u: World, w: World, e: Expr, c: ID, x: Json)
    requires Told(w, e, c, x) && u.specs == w.specs && u.eval == w.eval && WellWired(u)
    ensures SelectorsFaultless(u)
  {
    hide Told, WellWired, Renders, SelectorFaultless, ProperSpec, LabelTexts, TextsOf, FullContext, Telling, Faultless, ConditionsFaultless;
    ToldEval(w, e, c, x);
    ToldFaultless(w, e, c, x);
    FaultlessConditions(w);
    SameConditionsFaultless(u, w);
    forall id | id in u.specs ensures SelectorFaultless(u, u.specs[id]) {
      SpecProper(w, e, c, x, id);
      forall text | text in LabelTexts(w) && u.eval(text, FullContext(u)).Value? ensures u.eval(text, FullContext(u)).v.Str? {
        ToldLabel(w, e, c, x, text, FullContext(u));
      }
      GoodSelector(u, w, id);
    }
  }

  lemma ToldLabel(w: World, e: Expr, c: ID, x: Json, text: string, ctx: Ctx)
    requires Told(w, e, c, x) && text in LabelTexts(w) && w.eval(text, ctx).Value?
    ensures w.eval(text, ctx).v.Str?
  {
    hide ProperSpec, DimensionTexts, LabelTexts, FirstIs;
    ToldValue(w, e, c, x, text, ctx);
  }

  lemma SameConditionsFaultless(u: World, w: World)
    requires u.specs == w.specs && u.eval == w.eval
    ensures ConditionsFaultless(u) == ConditionsFaultless(w)
  {
    forall e, b ensures YieldsBool(u, e, b) == YieldsBool(w, e, b) {
    }
    assert NeverFatal(u) == NeverFatal(w);
    hide NeverFatal, YieldsBool;
    forall id | id in u.specs ensures BooleanConditions(u, u.specs[id]) == BooleanConditions(w, w.specs[id]) {
    }
  }

  /** Where labels are strings, a proper node has a selector. */
  lemma GoodSelector(u: World, w: World, id: ID)
    requires WellWired(u) && u.specs == w.specs && id in u.specs && ProperSpec(w, w.specs[id])
    requires forall text | text in LabelTexts(w) && u.eval(text, FullContext(u)).Value? :: u.eval(text, FullContext(u)).v.Str?
    ensures SelectorFaultless(u, u.specs[id])
  {
    hide WellWired, FullContext, Rendered;
    var spec := u.specs[id];
    if spec.kind.ExternalCollection? {
      forall data: Data | BaseData(u, spec.vars) == Some(data) ensures Covers(spec.vars, data) && AllStrings(spec.vars, data) {
        forall v | v in spec.vars ensures v.expr.original in data && data[v.expr.original].Str? {
          assert v.expr.original in LabelTexts(w) && v.expr.original in Originals(spec.vars, false);
        }
      }
    }
  }

  /** Whatever has been found so far, no condition that refers to the instance only is without a value. */
  lemma ToldNotPending(u: World, w: World, e: Expr, c: ID, x: Json, m: ID, i: nat)
    requires Told(w, e, c, x) && u.specs == w.specs && u.eval == w.eval && WellWired(u) && m in u.specs
    ensures !PendingAt(u, m, i)
  {
    hide Told, WellWired, FullContext, FirstIs, ProperSpec;
    var es := u.specs[m].includeWhen;
    if i < |es| {
      ToldRefers(w, e, c, x);
      SpecProper(w, e, c, x, m);
      assert HasExpr(w.specs[m], es[i]);
      ToldValue(w, e, c, x, es[i].original, FullContext(u));
      assert es[i].original == e.original ==> c in es[i].refs;
    }
  }

  lemma ToldFree(u: World, w: World, e: Expr, c: ID, x: Json, id: ID)
    requires Told(w, e, c, x) && u.specs == w.specs && u.eval == w.eval && WellWired(u) && id in u.specs
    ensures !Obstructed(u, id)
  {
    hide Told, WellWired, PendingAt, Included, RefsReady, Reaches;
    forall m, i | m in u.specs ensures !PendingAt(u, m, i) {
      ToldNotPending(u, w, e, c, x, m, i);
    }
  }

  // ---- A node that uses the expression is not resolved if another item comes first. ----

  ghost predicate Dark(w: World, e: Expr, c: ID, x: Json) {
    Told(w, e, c, x) && Observed(w, c)[0] != x
  }

  lemma DarkKnown(w: World, e: Expr, c: ID, x: Json)
    requires Dark(w, e, c, x)
    ensures Told(w, e, c, x) && WellWired(w) && c in w.observed && w.observed[c] != [] && w.observed[c][0] != x
    ensures c in w.specs && IsMany(w.specs[c].kind) && Fresh(w, e) == Pending
  {
    hide Proper;
    assert Observed(w, c) != [];
    assert !FirstIs(FullContext(w), c, x);
  }

  lemma DarkItem(w: World, e: Expr, c: ID, x: Json, id: ID, b: Binding)
    requires Dark(w, e, c, x) && id in w.specs && c !in b
    ensures WellWired(w) && w.eval(e.original, IterationContext(w, id, b)) == Pending
  {
    hide Told, WellWired;
    DarkKnown(w, e, c, x);
    ToldEval(w, e, c, x);
    assert !FirstIs(IterationContext(w, id, b), c, x);
  }

  lemma DarkCondition(w: World, e: Expr, c: ID, x: Json, desired: Desired, m: ID, n: ID)
    requires Dark(w, e, c, x) && m in w.specs && e in w.specs[m].includeWhen && m != INSTANCE
    requires Managed(w, n) && Reaches(IgnoreGraph(w), n, m)
    ensures WellWired(w) && Step(w, desired, n) == None
  {
    hide Dark, WellWired, ObjectsOf, ObservedReady, Fresh, DependenciesReady;
    DarkKnown(w, e, c, x);
    assert !Holds(w, e);
    InstanceKind(w, m);
    assert !OwnConditions(w, desired, m);
  }

  lemma DarkField(w: World, e: Expr, c: ID, x: Json, n: ID)
    requires Dark(w, e, c, x) && FieldUsed(w, n, e)
    ensures WellWired(w) && ObjectsOf(w, n) == None
  {
    hide Dark, WellWired, Fresh, ItemsOf, Rendered, BaseData, DimensionsOf, Told, DistinctIdentities, ProperSpec;
    DarkKnown(w, e, c, x);
    var spec := w.specs[n];
    if v :| v in spec.vars && !v.iteration && v.expr == e {
      assert e.original in Originals(spec.vars, false);
      NoBase(w, spec.vars, e);
    } else {
      var f :| f in spec.forEach && f.expr == e;
      DarkForEach(w, e, c, x, n, f);
    }
  }

  lemma DarkForEach(w: World, e: Expr, c: ID, x: Json, n: ID, f: ForEach)
    requires Dark(w, e, c, x) && n in w.specs && f in w.specs[n].forEach && f.expr == e
    ensures WellWired(w) && DimensionsOf(w, w.specs[n].forEach).Unavailable? && w.specs[n].kind.Collection?
  {
    hide Dark, WellWired, Fresh, Told, ProperSpec;
    DarkKnown(w, e, c, x);
    SpecProper(w, e, c, x, n);
    CollectionHasDimensions(w, w.specs[n]);
    forall d | d in w.specs[n].forEach ensures Fresh(w, d.expr).Pending? || Fresh(w, d.expr) == Value(Arr([Null])) {
      ToldDimension(w, e, c, x, n, d);
    }
    DarkDimension(w, w.specs[n].forEach, f);
  }

  lemma NoBase(w: World, vars: seq<Variable>, e: Expr)
    requires WellWired(w) && e.original in Originals(vars, false) && !Fresh(w, e).Value?
    ensures BaseData(w, vars) == None
  {
    hide WellWired, FullContext, Originals;
  }

  lemma {:induction false} DarkDimension(w: World, forEach: seq<ForEach>, f: ForEach)
    requires WellWired(w) && f in forEach && Fresh(w, f.expr) == Pending
    requires forall d | d in forEach :: Fresh(w, d.expr).Pending? || Fresh(w, d.expr) == Value(Arr([Null]))
    ensures DimensionsOf(w, forEach).Unavailable?
  {
    hide WellWired, Fresh;
    assert forEach[0] in forEach;
    if Fresh(w, forEach[0].expr).Value? {
      assert f in forEach[1..];
      DarkDimension(w, forEach[1..], f);
    }
  }

  /** If a collection is expanded, it has one item. */
  lemma ToldBindings(w: World, e: Expr, c: ID, x: Json, id: ID) returns (b: Binding)
    requires Told(w, e, c, x) && id in w.specs && w.specs[id].kind.Collection? && WellWired(w) && Bindings(w, id).Some?
    ensures Bindings(w, id) == Some([b]) && c !in b
  {
    hide Told, WellWired, Fresh, ProperSpec, DimensionsOf;
    SpecProper(w, e, c, x, id);
    ToldMax(w, e, c, x);
    CollectionHasDimensions(w, w.specs[id]);
    forall d | d in w.specs[id].forEach ensures Fresh(w, d.expr).Pending? || Fresh(w, d.expr) == Value(Arr([Null])) {
      ToldDimension(w, e, c, x, id, d);
    }
    if f :| f in w.specs[id].forEach && Fresh(w, f.expr) == Pending {
      DarkDimension(w, w.specs[id].forEach, f);
    }
    b := OneBinding(w, id);
    NotBound(w, id, c, b) by {
      ToldRefers(w, e, c, x);
    }
  }

  lemma ToldRefers(w: World, e: Expr, c: ID, x: Json)
    requires Told(w, e, c, x)
    ensures c in w.specs && c in e.refs && c != INSTANCE
  {
  }

  lemma DarkItemField(w: World, e: Expr, c: ID, x: Json, n: ID)
    requires Dark(w, e, c, x) && ItemUsed(w, n, e)
    ensures WellWired(w) && ObjectsOf(w, n) == None
  {
    hide Dark, WellWired, Told, DistinctIdentities, ProperSpec, BaseData, Bindings, ItemsOf, ItemOf;
    DarkKnown(w, e, c, x);
    SpecProper(w, e, c, x, n);
    IterationInCollection(w, n, e);
    if BaseData(w, w.specs[n].vars).Some? && Bindings(w, n).Some? {
      var base := BaseData(w, w.specs[n].vars).value;
      var b := ToldBindings(w, e, c, x, n);
      DarkItem(w, e, c, x, n, b);
      NoItem(w, n, e, base, b);
      if ItemsOf(w, n, base, [b]).Some? {
        ItemsOfPrefix(w, n, base, [b], 0);
      }
    }
  }

  lemma IterationInCollection(w: World, n: ID, e: Expr)
    requires ItemUsed(w, n, e) && ProperSpec(w, w.specs[n])
    ensures w.specs[n].kind.Collection?
  {
  }

  lemma NoItem(w: World, n: ID, e: Expr, base: Data, b: Binding)
    requires WellWired(w) && ItemUsed(w, n, e) && w.eval(e.original, IterationContext(w, n, b)) == Pending
    ensures ItemOf(w, n, base, b, 0) == None
  {
    hide WellWired, IterationContext, Rendered;
    assert e.original in Originals(w.specs[n].vars, true);
  }

  // ---- Two outputs. ----

  /** A managed node that cannot be resolved if another item comes first. */
  lemma DarkUnresolved(w: World, e: Expr, c: ID, x: Json, desired: Desired) returns (n: ID)
    requires Dark(w, e, c, x) && Used(w, e) && WellWired(w) && Solves(w, desired)
    ensures Managed(w, n) && n !in desired
  {
    hide Dark, WellWired, ObjectsOf, Included, DependenciesReady, FieldUsed, ItemUsed, Reaches;
    var m :| ConditionUsed(w, m, e) || FieldUsed(w, m, e) || ItemUsed(w, m, e);
    if ConditionUsed(w, m, e) {
      n :| Managed(w, n) && Reaches(IgnoreGraph(w), n, m);
      InstanceKind(w, m);
      DarkCondition(w, e, c, x, desired, m, n);
    } else {
      n := m;
      assert Managed(w, n) by {
        UsedManaged(w, n, e);
      }
      if FieldUsed(w, m, e) {
        DarkField(w, e, c, x, n);
      } else {
        DarkItemField(w, e, c, x, n);
      }
    }
  }

  lemma UsedManaged(w: World, n: ID, e: Expr)
    requires FieldUsed(w, n, e) || ItemUsed(w, n, e)
    ensures Managed(w, n)
  {
  }

  /** What one world resolves, emits, and another does not, makes their outputs differ. */
  lemma EmittedMakesDifference(w: World, v: World, n: ID, a: Desired, outA: map<string, Composed>,
                               b: Desired, outB: map<string, Composed>)
    requires WellWired(w) && WellWired(v) && v.specs == w.specs && ValidIDs(w)
    requires RunResult(w, map[], a, outA) && RunResult(v, map[], b, outB)
    requires Managed(w, n) && n in a && a[n] != [] && n !in b
    ensures outA != outB
  {
    hide WellWired, ResourceName, Solves, Entries;
    var name := ResourceName(w, n, a[n][0]);
    EveryNameEmitted(w, n, a[n], ReadyStateOf(w, a, n));
    assert name in Emitted(w, a, n);
    assert name in outA;
    if name in outB {
      var id :| id in v.specs && name in Emitted(v, b, id);
      assert Managed(v, id) && id in b;
      var k := EntryComesFrom(v, id, b[id], ReadyStateOf(v, b, id), name);
      SameNameSameNode(w, v, n, a[n][0], id, b[id][k]);
    }
  }

  lemma SameNameSameNode(w: World, v: World, n: ID, obj: Json, id: ID, obj': Json)
    requires v.specs == w.specs && ValidIDs(w) && Managed(w, n) && Managed(v, id)
    requires ResourceName(w, n, obj) == ResourceName(v, id, obj')
    ensures n == id
  {
    Naming.ComposedNamesDiffer(n, w.specs[n].kind.Collection?, Name(obj), id, v.specs[id].kind.Collection?, Name(obj'));
  }

  /**
    With an oracle that tells which item of `c` comes first, runs emit different resources if different items do, and
    a used expression refers to `c`. Neither run fails.
   */
  lemma OrderShows(w: World, v: World, order: seq<ID>, e: Expr, c: ID, x: Json,
                   a: Desired, outA: map<string, Composed>, b: Desired, outB: map<string, Composed>)
    requires Bright(w, e, c, x) && Dark(v, e, c, x) && v.specs == w.specs && Used(w, e)
    requires WellWired(w) && WellWired(v) && Ordered(w, order) && ValidIDs(w)
    requires RunResult(w, map[], a, outA) && RunResult(v, map[], b, outB)
    ensures outA != outB
  {
    hide WellWired, Bright, Dark, Output, Solves, Ordered, ConditionUsed, FieldUsed, ItemUsed, ValidIDs;
    UsedSame(w, v, e);
    var n := DarkUnresolved(v, e, c, x, b);
    AllBright(w, order, |order|, e, c, x, a);
    assert order[..|order|] == order;
    assert n in order by {
      InOrder(w, order, n);
    }
    EmittedMakesDifference(w, v, n, a, outA, b, outB);
  }

  lemma InOrder(w: World, order: seq<ID>, n: ID)
    requires Ordered(w, order) && n in w.specs
    ensures n in order
  {
    assert n in IgnoreGraph(w);
    assert n in Elems(order);
  }

  lemma UsedSame(w: World, v: World, e: Expr)
    requires v.specs == w.specs && Used(w, e)
    ensures Used(v, e)
  {
    hide FieldUsed, ItemUsed;
    assert IgnoreGraph(v) == IgnoreGraph(w);
    forall n ensures Managed(v, n) == Managed(w, n) {
    }
    var m :| ConditionUsed(w, m, e) || FieldUsed(w, m, e) || ItemUsed(w, m, e);
    if ConditionUsed(w, m, e) {
      assert ConditionUsed(v, m, e);
    } else {
      FieldsSame(w, v, m, e);
    }
  }

  lemma FieldsSame(w: World, v: World, n: ID, e: Expr)
    requires v.specs == w.specs
    ensures FieldUsed(v, n, e) == FieldUsed(w, n, e) && ItemUsed(v, n, e) == ItemUsed(w, n, e)
  {
  }
}
