/** What identifies an external node: the fields at `metadata.name` and `metadata.namespace`. */
module Identities {
  import opened Trees
  import opened Graphs
  import opened Grafting
  import opened FieldPath
  import opened Template
  import opened Resolver
  import opened Objects
  import opened World
  import opened Adequacy
  import opened Reconcile
  import opened Faults
  import opened Walks
  import opened Meanings
  import T = Text

  predicate IsIdentity(v: Variable) {
    v.path == "metadata.name" || v.path == "metadata.namespace"
  }

  lemma {:induction false} IdentityVarsAre(vars: seq<Variable>)
    ensures forall v :: v in IdentityVars(vars) <==> v in vars && IsIdentity(v)
  {
    if vars != [] {
      IdentityVarsAre(vars[..|vars| - 1]);
      assert vars == vars[..|vars| - 1] + [vars[|vars| - 1]];
    }
  }

  /** They keep their order. */
  lemma {:induction false} IdentityPlaces(vars: seq<Variable>) returns (places: seq<nat>)
    ensures |places| == |IdentityVars(vars)|
    ensures forall i | 0 <= i < |places| :: places[i] < |vars| && IdentityVars(vars)[i] == vars[places[i]]
    ensures forall i, j | 0 <= i < j < |places| :: places[i] < places[j]
  {
    places := [];
    if vars != [] {
      var n := |vars| - 1;
      places := IdentityPlaces(vars[..n]);
      if IsIdentity(vars[n]) {
        places := places + [n];
      }
    }
  }

  // ---- What identification ends with. ----

  /** Why the evaluation of fields does not yield values. */
  lemma {:induction false} BaseStops(w: World, cache: Cache, id: ID, only: set<string>, i: nat, values: Data)
    requires WellWired(w) && Monotone(w.eval) && Sound(w, cache) && Adequate(w) && id in w.specs && i <= |w.specs[id].vars|
    ensures var r := BaseFrom(w, cache, id, only, i, values).0;
            && (r.Failure? ==> exists o :: o in Named(w.specs[id].vars, only) && w.eval(o, FullContext(w)).Fatal?)
            && (r.NotYet? ==> exists o :: o in Named(w.specs[id].vars, only) && w.eval(o, FullContext(w)).Pending?)
    decreases |w.specs[id].vars| - i
  {
    hide WellWired, Monotone, Sound, Look, NodeContext, FullContext, FilterContext, Within, Adequate, Named, FieldRefs;
    var vars := w.specs[id].vars;
    if i < |vars| {
      NamedOneMore(vars, only, i);
      if vars[i].iteration || vars[i].expr.original !in only {
        BaseStops(w, cache, id, only, i + 1, values);
      } else {
        var e, ctx := vars[i].expr, NodeContext(w, id, FieldRefs(vars, only));
        FieldFresh(w, id, only, vars[i]);
        LookMeans(w, cache, Text(e.original), e, ctx);
        var (v, c) := Look(w.eval, cache, Text(e.original), e, ctx);
        if v.Value? {
          BaseStops(w, c, id, only, i + 1, values[e.original := v.v]);
        } else {
          assert w.eval(e.original, FullContext(w)) == v by {
            NoValueIsFresh(w, cache, e, ctx);
          }
        }
      }
    }
  }

  lemma NoValueIsFresh(w: World, cache: Cache, e: Expr, ctx: Ctx)
    requires WellWired(w) && w.eval(e.original, FilterContext(ctx, e.refs)) == Fresh(w, e)
    requires !Look(w.eval, cache, Text(e.original), e, ctx).0.Value?
    ensures Look(w.eval, cache, Text(e.original), e, ctx).0 == w.eval(e.original, FullContext(w))
  {
    hide WellWired, FilterContext, FullContext;
  }

  /** The expression that a field at `metadata.name` or `metadata.namespace` has. */
  predicate IdentityText(vars: seq<Variable>, o: string) {
    exists v :: v in vars && (v.path == "metadata.name" || v.path == "metadata.namespace") && !v.iteration && v.expr.original == o
  }

  /**
    The name and the namespace are all that is evaluated: it takes a value for each of them, and without a fatal one, it
    is pending exactly if one of them is.
   */
  lemma IdentityDecided(w: World, cache: Cache, id: ID)
    requires WellWired(w) && Monotone(w.eval) && Sound(w, cache) && id in w.specs && w.specs[id].kind.External?
    ensures var vars, ctx, r := w.specs[id].vars, FullContext(w), SingleNow(w, cache, id, IdentityVars(w.specs[id].vars)).0;
            && (r.Done? ==> forall o | IdentityText(vars, o) :: w.eval(o, ctx).Value?)
            && (Adequate(w) && (forall o | IdentityText(vars, o) :: !w.eval(o, ctx).Fatal?) ==>
                 (r.NotYet? <==> exists o :: IdentityText(vars, o) && w.eval(o, ctx).Pending?))
  {
    hide WellWired, Monotone, Sound, BaseFrom, FullContext, Rendered, Adequate, Named, IdentityVars, IdentityText;
    var vars := w.specs[id].vars;
    var only := Originals(IdentityVars(vars), false);
    NothingNamed(vars, only);
    BaseMeans(w, cache, id, only, 0, map[]);
    if Adequate(w) {
      BaseStops(w, cache, id, only, 0, map[]);
    }
    forall o ensures o in Named(vars, only) <==> IdentityText(vars, o) {
      NamedIdentity(vars, o);
    }
  }

  lemma NothingNamed(vars: seq<Variable>, only: set<string>)
    ensures Named(vars[..0], only) == {}
  {
  }

  lemma NamedIdentity(vars: seq<Variable>, o: string)
    ensures o in Named(vars, Originals(IdentityVars(vars), false)) <==> IdentityText(vars, o)
  {
    hide IdentityVars;
    IdentityVarsAre(vars);
    if v :| v in vars && IsIdentity(v) && !v.iteration && v.expr.original == o {
      assert v in IdentityVars(vars);
      assert o in Originals(IdentityVars(vars), false);
    }
  }

  // ---- The identity of the resolved node. ----

  function Place(name: string): Path {
    [Field("metadata"), Field(name)]
  }

  /** A name that needs no quotes. */
  predicate Simple(name: string) {
    name != "" && forall k | 0 <= k < |name| :: name[k] !in {'.', '['}
  }

  lemma PlacePrinted(name: string)
    requires Simple(name)
    ensures Print(Place(name)) == "metadata." + name && Parsed("metadata." + name) == T.Ok(Place(name))
  {
    var p := Place(name);
    assert Simple("metadata");
    SimplePrinted("metadata", name);
    SimpleCarriable("metadata");
    SimpleCarriable(name);
    PrintParsesIff(p);
  }

  lemma SimplePrinted(first: string, second: string)
    requires Simple(first) && Simple(second)
    ensures Print([Field(first), Field(second)]) == first + "." + second
  {
    var p := [Field(first), Field(second)];
    assert p[..1] == [Field(first)] && [Field(first)][..0] == [];
    assert Print([Field(first)]) == first;
  }

  lemma SimpleCarriable(name: string)
    requires Simple(name)
    ensures Carriable(Field(name))
  {
  }

  /** A place that is read through two maps. */
  lemma StringThere(t: Json, name: string)
    requires t.Obj? && "metadata" in t.fields && t.fields["metadata"].Obj?
    ensures var m := t.fields["metadata"].fields;
            && Get(t, Place(name)) == (if name in m then Some(m[name]) else None)
            && StringAt(t, Place(name)) == if name in m && m[name].Str? then m[name].s else ""
  {
    var p := Place(name);
    assert p[1..] == [Field(name)] && p[1..][1..] == [];
    assert Get(t.fields["metadata"], p[1..]) == if name in t.fields["metadata"].fields then Some(t.fields["metadata"].fields[name]) else None;
  }

  lemma CleanedString(t: Json, name: string)
    requires t.Obj? && "metadata" in t.fields && t.fields["metadata"].Obj?
    ensures StringAt(Clean(t), Place(name)) == StringAt(t, Place(name))
  {
    StringThere(t, name);
    assert "metadata" in Clean(t).fields && Clean(t).fields["metadata"] == Clean(t.fields["metadata"]);
    StringThere(Clean(t), name);
    if name in t.fields["metadata"].fields {
      StaysString(t.fields["metadata"].fields[name]);
    }
  }

  lemma StaysString(x: Json)
    ensures Clean(x).Str? <==> x.Str?
    ensures x.Str? ==> Clean(x) == x
  {
  }

  /** Grafts at two places below `metadata` only. */
  lemma GraftedString(t: Json, f: map<Path, Json>, name: string)
    requires t.Obj? && "metadata" in t.fields && t.fields["metadata"].Obj?
    requires forall p | p in f :: |p| == 2
    ensures var g := Graft(t, [], f);
            && g.Obj? && "metadata" in g.fields && g.fields["metadata"].Obj?
            && (name in t.fields["metadata"].fields ==>
                 StringAt(g, Place(name)) == if Place(name) in f then (if f[Place(name)].Str? then f[Place(name)].s else "") else StringAt(t, Place(name)))
            && (name !in t.fields["metadata"].fields ==> StringAt(g, Place(name)) == "")
  {
    var g := Graft(t, [], f);
    assert [] !in f && [] + [Field("metadata")] == [Field("metadata")] && [Field("metadata")] !in f;
    var m := Graft(t.fields["metadata"], [Field("metadata")], f);
    assert g.fields["metadata"] == m;
    StringThere(t, name);
    StringThere(g, name);
    assert [Field("metadata")] + [Field(name)] == Place(name);
    if name in t.fields["metadata"].fields {
      assert m.fields[name] == Graft(t.fields["metadata"].fields[name], Place(name), f);
    }
  }

  lemma SubstitutedString(t: Json, data: Data, name: string)
    requires t.Obj? && "metadata" in t.fields && t.fields["metadata"].Obj?
    requires ExprAt(t, Place(name)).Some? ==> ExprAt(t, Place(name)).value in data
    ensures var g := Substituted(t, data);
            && g.Obj? && "metadata" in g.fields && g.fields["metadata"].Obj?
            && StringAt(g, Place(name)) ==
               if ExprAt(t, Place(name)).Some? then (match data[ExprAt(t, Place(name)).value] case Str(s) => s case _ => "")
               else StringAt(t, Place(name))
  {
    hide LeafExpr;
    var g := Substituted(t, data);
    var m := Substituted(t.fields["metadata"], data);
    assert "metadata" in g.fields && g.fields["metadata"] == m && m.Obj?;
    StringThere(t, name);
    StringThere(g, name);
    if name in t.fields["metadata"].fields {
      var x := t.fields["metadata"].fields[name];
      assert m.fields[name] == Substituted(x, data);
      assert ExprAt(t, Place(name)) == match x case Str(s) => LeafExpr(s) case _ => None;
    }
  }

  /** The fields of the template, each at its place. */
  ghost predicate PlacedAt(spec: Spec, ps: seq<Path>) {
    AllPlaces(spec.template, ps) && DescribesEach(spec.template, [], Descriptors(spec.vars), ps)
  }

  lemma FieldAt(spec: Spec, ps: seq<Path>, j: nat)
    requires FieldsOfTemplate(spec) && PlacedAt(spec, ps) && j < |ps|
    ensures j < |spec.vars| && ExprAt(spec.template, ps[j]) == Some(spec.vars[j].expr.original)
    ensures Parsed(spec.vars[j].path) == T.Ok(ps[j]) && Print(ps[j]) == spec.vars[j].path
    ensures IsIdentity(spec.vars[j]) <==> ps[j] in {Place("name"), Place("namespace")}
  {
    hide ExprAt, Describes, AllPlaces;
    var d := Descriptors(spec.vars)[j];
    assert [] + ps[j] == ps[j];
    PrintParsesIff(ps[j]);
    hide Print, Parsed, AllCarriable;
    IdentityPath(spec.vars[j].path, ps[j]);
  }

  lemma IdentityPath(path: string, p: Path)
    requires Parsed(path) == T.Ok(p) && Print(p) == path
    ensures path == "metadata.name" || path == "metadata.namespace" <==> p in {Place("name"), Place("namespace")}
  {
    hide Print, Parsed;
    var name, namespace := "metadata." + "name", "metadata." + "namespace";
    assert Simple("name") && Simple("namespace");
    PlacePrinted("name");
    PlacePrinted("namespace");
    assert name == "metadata.name" && namespace == "metadata.namespace";
  }

  /** The identity's fields go to the two places, each to its own. */
  lemma IdentityAt(spec: Spec, ps: seq<Path>, places: seq<nat>, i: nat)
    requires FieldsOfTemplate(spec) && PlacedAt(spec, ps) && |places| == |IdentityVars(spec.vars)| && i < |places|
    requires places[i] < |spec.vars| && IdentityVars(spec.vars)[i] == spec.vars[places[i]]
    ensures places[i] < |ps| == |spec.vars| && ps[places[i]] in {Place("name"), Place("namespace")}
    ensures Parsed(Descriptors(IdentityVars(spec.vars))[i].path) == T.Ok(ps[places[i]])
    ensures ExprAt(spec.template, ps[places[i]]) == Some(Descriptors(IdentityVars(spec.vars))[i].expr)
  {
    hide IdentityVars, FieldsOfTemplate;
    IdentityVarsAre(spec.vars);
    FieldAt(spec, ps, places[i]);
  }

  lemma IdentityApart(spec: Spec, ps: seq<Path>)
    requires FieldsOfTemplate(spec) && PlacedAt(spec, ps)
    ensures PairwiseApart(Descriptors(IdentityVars(spec.vars)))
  {
    hide IdentityVars, FieldsOfTemplate, ExprAt, Parsed;
    var places := IdentityPlaces(spec.vars);
    var ds := Descriptors(IdentityVars(spec.vars));
    forall i, j | 0 <= i < j < |ds| ensures Apart(ds[i], ds[j]) {
      IdentityAt(spec, ps, places, i);
      IdentityAt(spec, ps, places, j);
      var p, q := ps[places[i]], ps[places[j]];
      assert p != q && |p| == |q| == 2;
    }
  }

  lemma IdentityEffect(spec: Spec, ps: seq<Path>, data: Data, p: Path)
    requires FieldsOfTemplate(spec) && PlacedAt(spec, ps) && p in Effects(spec.template, Descriptors(IdentityVars(spec.vars)), data)
    ensures |p| == 2 && ExprAt(spec.template, p).Some? && ExprAt(spec.template, p).value in data
    ensures Effects(spec.template, Descriptors(IdentityVars(spec.vars)), data)[p] == data[ExprAt(spec.template, p).value]
  {
    hide IdentityVars, FieldsOfTemplate, ExprAt, Parsed, PlacedAt;
    var places := IdentityPlaces(spec.vars);
    var i := EffectsFrom(spec.template, Descriptors(IdentityVars(spec.vars)), data, p);
    IdentityAt(spec, ps, places, i);
  }

  lemma IdentityWritten(spec: Spec, ps: seq<Path>, data: Data, name: string)
    requires FieldsOfTemplate(spec) && PlacedAt(spec, ps) && name in {"name", "namespace"} && Covers(IdentityVars(spec.vars), data)
    requires ExprAt(spec.template, Place(name)).Some?
    ensures Place(name) in Effects(spec.template, Descriptors(IdentityVars(spec.vars)), data)
  {
    hide IdentityVars, FieldsOfTemplate, Parsed;
    var j :| 0 <= j < |ps| && ps[j] == Place(name);
    FieldAt(spec, ps, j);
    IdentityVarsAre(spec.vars);
    var vars := IdentityVars(spec.vars);
    assert spec.vars[j] in vars;
    var i :| 0 <= i < |vars| && vars[i] == spec.vars[j];
    EffectsOf(spec.template, Descriptors(vars), data, i, Place(name));
  }

  /** Name and namespace of what is identified are those of the object with all fields filled in. */
  lemma IdentityAgrees(spec: Spec, some: Data, all: Data)
    requires FieldsOfTemplate(spec) && "metadata" in spec.template.fields && spec.template.fields["metadata"].Obj?
    requires Covers(IdentityVars(spec.vars), some) && Covers(spec.vars, all) && forall e | e in some && e in all :: some[e] == all[e]
    requires Rendered(spec.template, Descriptors(IdentityVars(spec.vars)), some).Some?
    ensures Rendered(spec.template, Descriptors(spec.vars), all).Some?
    ensures var a, b := Rendered(spec.template, Descriptors(IdentityVars(spec.vars)), some).value,
                        Rendered(spec.template, Descriptors(spec.vars), all).value;
            && StringAt(a, [Field("metadata"), Field("name")]) == StringAt(b, [Field("metadata"), Field("name")])
            && StringAt(a, [Field("metadata"), Field("namespace")]) == StringAt(b, [Field("metadata"), Field("namespace")])
  {
    RenderedSubstitutes(spec, all);
    PlaceAgrees(spec, some, all, "name");
    PlaceAgrees(spec, some, all, "namespace");
  }

  lemma PlaceAgrees(spec: Spec, some: Data, all: Data, name: string)
    requires FieldsOfTemplate(spec) && "metadata" in spec.template.fields && spec.template.fields["metadata"].Obj?
    requires Covers(IdentityVars(spec.vars), some) && Covers(spec.vars, all) && forall e | e in some && e in all :: some[e] == all[e]
    requires name in {"name", "namespace"}
    ensures StringAt(Clean(AppliedAll(spec.template, Descriptors(IdentityVars(spec.vars)), some)), Place(name)) ==
            StringAt(Clean(Substituted(spec.template, all)), Place(name))
  {
    hide IdentityVars, FieldsOfTemplate, Parsed, ExprAt, AppliedAll, Substituted, Clean, StringAt, Effects, Graft, Get;
    var t, ds := spec.template, Descriptors(IdentityVars(spec.vars));
    var ps := PlacesOf(spec);
    TemplateIsMap(spec);
    IdentityApart(spec, ps);
    AppliedAllGrafts(t, ds, some);
    var f := Effects(t, ds, some);
    forall p | p in f ensures |p| == 2 && ExprAt(t, p).Some? && ExprAt(t, p).value in some && f[p] == some[ExprAt(t, p).value] {
      IdentityEffect(spec, ps, some, p);
    }
    if ExprAt(t, Place(name)).Some? {
      IdentityWritten(spec, ps, some, name);
      ExprCovered(spec, ps, all, Place(name));
    }
    GraftedString(t, f, name);
    SubstitutedString(t, all, name);
    CleanedString(Graft(t, [], f), name);
    CleanedString(Substituted(t, all), name);
    StringThere(t, name);
    ThereIfExpr(t, name);
  }

  lemma TemplateIsMap(spec: Spec)
    requires FieldsOfTemplate(spec)
    ensures spec.template.Obj?
  {
  }

  lemma PlacesOf(spec: Spec) returns (ps: seq<Path>)
    requires FieldsOfTemplate(spec)
    ensures PlacedAt(spec, ps)
  {
    ps :| AllPlaces(spec.template, ps) && DescribesEach(spec.template, [], Descriptors(spec.vars), ps);
  }

  lemma ExprCovered(spec: Spec, ps: seq<Path>, data: Data, p: Path)
    requires FieldsOfTemplate(spec) && PlacedAt(spec, ps) && Covers(spec.vars, data) && ExprAt(spec.template, p).Some?
    ensures ExprAt(spec.template, p).value in data
  {
    hide FieldsOfTemplate, Parsed;
    var j :| 0 <= j < |ps| && ps[j] == p;
    FieldAt(spec, ps, j);
    assert spec.vars[j] in spec.vars;
  }

  lemma ThereIfExpr(t: Json, name: string)
    requires t.Obj? && "metadata" in t.fields && t.fields["metadata"].Obj?
    ensures ExprAt(t, Place(name)).Some? ==> name in t.fields["metadata"].fields
    ensures name !in t.fields["metadata"].fields ==> StringAt(t, Place(name)) == ""
  {
    StringThere(t, name);
  }

  // ---- What identification means. ----

  /**
    The identity has a value for each field at `metadata.name` and `metadata.namespace`, is pending if one of them is, and
    names the object that the node stands for once it is resolved.
   */
  ghost predicate Identified(w: World, id: ID, r: Attempt<Json>)
    requires WellWired(w) && id in w.specs
  {
    var spec, ctx := w.specs[id], FullContext(w);
    && (r.Done? ==> forall o | IdentityText(spec.vars, o) :: w.eval(o, ctx).Value?)
    && (Adequate(w) && (forall o | IdentityText(spec.vars, o) :: !w.eval(o, ctx).Fatal?) ==>
         (r.NotYet? <==> exists o :: IdentityText(spec.vars, o) && w.eval(o, ctx).Pending?))
    && (r.Done? && CarriesMetadata(spec) && ObjectsOf(w, id).Some? ==>
         && |ObjectsOf(w, id).value| == 1
         && StringAt(r.value, [Field("metadata"), Field("name")]) == StringAt(ObjectsOf(w, id).value[0], [Field("metadata"), Field("name")])
         && StringAt(r.value, [Field("metadata"), Field("namespace")]) == StringAt(ObjectsOf(w, id).value[0], [Field("metadata"), Field("namespace")]))
  }

  lemma RenderedCovers(template: Json, vars: seq<Variable>, data: Data)
    requires Rendered(template, Descriptors(vars), data).Some?
    ensures Covers(vars, data)
  {
    forall v | v in vars ensures v.expr.original in data {
      var i :| 0 <= i < |vars| && vars[i] == v;
      assert Outcome(AppliedAll(template, Descriptors(vars)[..i], data), Descriptors(vars)[i], data).Resolved?;
    }
  }

  lemma IdentifiedMeans(w: World, cache: Cache, id: ID)
    requires WellWired(w) && Monotone(w.eval) && Sound(w, cache) && id in w.specs && w.specs[id].kind.External?
    ensures var (r, c) := SingleNow(w, cache, id, IdentityVars(w.specs[id].vars)); Sound(w, c) && Identified(w, id, r)
  {
    hide WellWired, Monotone, Sound, BaseFrom, FullContext, Rendered, Adequate, Named, IdentityVars, IdentityText, StringAt, FieldsOfTemplate;
    hide NeverFatal;
    var spec := w.specs[id];
    var vars := IdentityVars(spec.vars);
    var only := Originals(vars, false);
    IdentityDecided(w, cache, id);
    NothingNamed(spec.vars, only);
    BaseMeans(w, cache, id, only, 0, map[]);
    var base := BaseFrom(w, cache, id, only, 0, map[]).0;
    if base.Done? && Rendered(spec.template, Descriptors(vars), base.value).Some? && CarriesMetadata(spec) && ObjectsOf(w, id).Some? {
      var all := BaseData(w, spec.vars).value;
      RenderedCovers(spec.template, vars, base.value);
      RenderedCovers(spec.template, spec.vars, all);
      IdentityAgrees(spec, base.value, all);
    }
  }
}
