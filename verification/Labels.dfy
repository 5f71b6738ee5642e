/**
  Selectors whose labels are filled in: templates of external collections with expressions in the place of labels, and a
  graph with such a template.
 */
module Labels {
  import opened Sets
  import opened Graphs
  import opened Trees
  import opened FieldPath
  import opened Template
  import opened Resolver
  import opened Objects
  import opened World
  import opened Adequacy
  import opened Reconcile
  import opened Faults
  import opened Walks
  import opened Exactness
  import opened Selectors
  import opened Wiring
  import opened Sharing
  import opened Extraction
  import opened Reconciliations
  import opened Confluence
  import opened Examples
  import Scanner
  import Tokens
  import Naming

  // ---- The shape of a selector. ----

  /** Values of expressions are strings where they stand in `t`. */
  ghost predicate Strings(t: Json, data: Data) {
    forall p | ExprAt(t, p).Some? && ExprAt(t, p).value in data :: data[ExprAt(t, p).value].Str?
  }

  /** What `t` becomes. */
  function Filled(t: Json, data: Data): Json {
    Clean(Substituted(t, data))
  }

  lemma StringsBelow(t: Json, seg: Segment, data: Data)
    requires Strings(t, data) && Present(t, seg)
    ensures Strings(At(t, seg), data)
  {
    hide ExprAt;
    forall p | ExprAt(At(t, seg), p).Some? ensures ExprAt(t, [seg] + p) == ExprAt(At(t, seg), p) {
      MemberExpr(t, seg, p);
    }
  }

  lemma TextFilled(x: Json, data: Data)
    requires IsText(x) && Strings(x, data)
    ensures IsText(Filled(x, data))
  {
    assert Get(x, []) == Some(x);
    assert x.Str? ==> ExprAt(x, []) == LeafExpr(x.s);
  }

  /** An element of a list that is filled in is an element that is filled in. */
  lemma ItemFilled(items: seq<Json>, data: Data, y: Json)
    requires Filled(Arr(items), data).items != [] && y in Filled(Arr(items), data).items
    ensures exists i :: 0 <= i < |items| && y == Filled(items[i], data)
  {
    var filled := Substituted(Arr(items), data).items;
    var j :| 0 <= j < |CleanItems(filled)| && CleanItems(filled)[j] == y;
    var i := CleanItemFrom(filled, j);
    CleanItemsAt(filled, i);
    assert y == Filled(items[i], data);
  }

  /** A member that is filled in, if it is not omitted. */
  lemma MemberFilled(fields: map<string, Json>, name: string, data: Data)
    requires name in fields ==> Substituted(fields[name], data) != Omit
    ensures Filled(Obj(fields), data).Obj? && Member(Filled(Obj(fields), data).fields, name) == Filled(Member(fields, name), data)
    ensures name in fields <==> name in Filled(Obj(fields), data).fields
  {
  }

  lemma NotOmitted(x: Json, data: Data)
    requires x != Omit && Strings(x, data)
    ensures Substituted(x, data) != Omit
  {
    assert Get(x, []) == Some(x);
    assert x.Str? ==> ExprAt(x, []) == LeafExpr(x.s);
  }

  lemma MemberStays(fields: map<string, Json>, name: string, data: Data)
    requires Strings(Obj(fields), data) && Member(fields, name) != Omit
    ensures Filled(Obj(fields), data).Obj? && Member(Filled(Obj(fields), data).fields, name) == Filled(Member(fields, name), data)
    ensures Strings(Member(fields, name), data)
  {
    hide Strings, Filled, Substituted, ExprAt;
    if name in fields {
      StringsBelow(Obj(fields), Field(name), data);
      NotOmitted(fields[name], data);
    } else {
      NullStrings(data);
    }
    MemberFilled(fields, name, data);
  }

  lemma NullStrings(data: Data)
    ensures Strings(Null, data) && Filled(Null, data) == Null
  {
    forall p ensures ExprAt(Null, p).None? {
    }
  }

  lemma TextsFilled(x: Json, data: Data)
    requires IsTextList(x) && Strings(x, data)
    ensures IsTextList(Filled(x, data))
  {
    hide Strings, IsText;
    if x.Arr? {
      forall y | y in Filled(x, data).items ensures IsText(y) {
        ItemFilled(x.items, data, y);
        var i :| 0 <= i < |x.items| && y == Filled(x.items[i], data);
        StringsBelow(x, Index(i), data);
        assert x.items[i] in x.items;
        TextFilled(x.items[i], data);
      }
    }
  }

  lemma RequirementFilled(x: Json, data: Data)
    requires IsRequirement(x) && Strings(x, data)
    ensures IsRequirement(Filled(x, data))
  {
    hide Strings, Filled;
    if x.Obj? {
      MemberStays(x.fields, "key", data);
      MemberStays(x.fields, "operator", data);
      MemberStays(x.fields, "values", data);
      TextFilled(Member(x.fields, "key"), data);
      TextFilled(Member(x.fields, "operator"), data);
      TextsFilled(Member(x.fields, "values"), data);
    } else {
      NullStrings(data);
    }
  }

  lemma LabelsFilled(x: Json, data: Data)
    requires IsLabels(x) && Strings(x, data)
    ensures IsLabels(Filled(x, data))
  {
    hide Strings, IsText;
    if x.Obj? {
      forall k | k in Filled(x, data).fields ensures IsText(Filled(x, data).fields[k]) {
        StringsBelow(x, Field(k), data);
        TextFilled(x.fields[k], data);
      }
    }
  }

  lemma RequirementsFilled(x: Json, data: Data)
    requires AreRequirements(x) && Strings(x, data)
    ensures AreRequirements(Filled(x, data))
  {
    hide Strings, IsRequirement;
    if x.Arr? {
      forall y | y in Filled(x, data).items ensures IsRequirement(y) {
        ItemFilled(x.items, data, y);
        var i :| 0 <= i < |x.items| && y == Filled(x.items[i], data);
        StringsBelow(x, Index(i), data);
        assert x.items[i] in x.items;
        RequirementFilled(x.items[i], data);
      }
    }
  }

  lemma SelectorSteps(t: Json)
    ensures SelectorIn(t) == if t.Obj? && "metadata" in t.fields && t.fields["metadata"].Obj? && "selector" in t.fields["metadata"].fields
                             then Some(t.fields["metadata"].fields["selector"]) else None
  {
    var path := [Field("metadata"), Field("selector")];
    assert path[1..] == [Field("selector")] && path[1..][1..] == [];
    if Present(t, path[0]) {
      var metadata := At(t, path[0]);
      assert Get(metadata, path[1..]) == if Present(metadata, path[1]) then Some(At(metadata, path[1])) else None;
    }
  }

  function InSelector(more: Path): Path {
    [Field("metadata"), Field("selector")] + more
  }

  /** Where a selector can be read off, everything in it that has to be a string is a string, or null or not there. */
  lemma SelectorReads(obj: Json, k: string, i: nat, j: nat)
    requires HasSelector(obj)
    ensures Get(obj, InSelector([])).Some? && Get(obj, InSelector([])).value.Obj?
    ensures TextThere(obj, InSelector([Field("matchLabels"), Field(k)]))
    ensures TextThere(obj, InSelector([Field("matchExpressions"), Index(i), Field("key")]))
    ensures TextThere(obj, InSelector([Field("matchExpressions"), Index(i), Field("operator")]))
    ensures TextThere(obj, InSelector([Field("matchExpressions"), Index(i), Field("values"), Index(j)]))
  {
    var sel := SelectorIn(obj).value;
    InsideSelector(obj, []);
    InsideSelector(obj, [Field("matchLabels"), Field(k)]);
    InsideSelector(obj, [Field("matchExpressions"), Index(i), Field("key")]);
    InsideSelector(obj, [Field("matchExpressions"), Index(i), Field("operator")]);
    InsideSelector(obj, [Field("matchExpressions"), Index(i), Field("values"), Index(j)]);
    hide SelectorIn, InSelector;
    var labels, requirements := Member(sel.fields, "matchLabels"), Member(sel.fields, "matchExpressions");
    OneStep(sel, "matchLabels", [Field(k)]);
    OneStep(sel, "matchExpressions", [Index(i), Field("key")]);
    OneStep(sel, "matchExpressions", [Index(i), Field("operator")]);
    OneStep(sel, "matchExpressions", [Index(i), Field("values"), Index(j)]);
    LabelThere(labels, k);
    RequirementThere(requirements, i, j);
  }

  predicate TextThere(obj: Json, p: Path) {
    Get(obj, p).Some? ==> Get(obj, p).value.Str? || Get(obj, p).value.Null?
  }

  lemma InsideSelector(obj: Json, more: Path)
    requires SelectorIn(obj).Some?
    ensures Get(obj, InSelector(more)) == Get(SelectorIn(obj).value, more)
  {
    GetThrough(obj, [Field("metadata"), Field("selector")], more);
  }

  lemma OneStep(sel: Json, name: string, more: Path)
    requires sel.Obj? && more != []
    ensures Get(sel, [Field(name)] + more) == Get(Member(sel.fields, name), more)
  {
    assert ([Field(name)] + more)[1..] == more;
  }

  lemma LabelThere(labels: Json, k: string)
    requires IsLabels(labels)
    ensures TextThere(labels, [Field(k)])
  {
    assert [Field(k)][1..] == [];
  }

  lemma RequirementThere(requirements: Json, i: nat, j: nat)
    requires AreRequirements(requirements)
    ensures TextThere(requirements, [Index(i), Field("key")]) && TextThere(requirements, [Index(i), Field("operator")])
    ensures TextThere(requirements, [Index(i), Field("values"), Index(j)])
  {
    if requirements.Arr? && i < |requirements.items| {
      var y := requirements.items[i];
      assert y in requirements.items;
      GetThrough(requirements, [Index(i)], [Field("key")]);
      GetThrough(requirements, [Index(i)], [Field("operator")]);
      GetThrough(requirements, [Index(i)], [Field("values"), Index(j)]);
      assert [Index(i)][1..] == [];
      MembersThere(y, j);
    }
  }

  lemma MembersThere(y: Json, j: nat)
    requires IsRequirement(y)
    ensures TextThere(y, [Field("key")]) && TextThere(y, [Field("operator")]) && TextThere(y, [Field("values"), Index(j)])
  {
    if y.Obj? {
      OneStep(y, "values", [Index(j)]);
      assert [Field("key")][1..] == [] && [Field("operator")][1..] == [];
      var values := Member(y.fields, "values");
      assert [Index(j)][1..] == [];
      if values.Arr? && j < |values.items| {
        assert values.items[j] in values.items;
      }
    }
  }

  lemma SelectorFilled(t: Json, data: Data)
    requires SelectorIn(t).Some? && SelectorIn(t).value.Obj?
    ensures SelectorIn(Filled(t, data)) == Some(Filled(SelectorIn(t).value, data))
  {
    hide Filled, SelectorIn;
    SelectorSteps(t);
    SelectorSteps(Filled(t, data));
    var metadata := t.fields["metadata"];
    MemberFilled(t.fields, "metadata", data);
    MemberFilled(metadata.fields, "selector", data);
    assert t == Obj(t.fields) && metadata == Obj(metadata.fields);
    var filled := Filled(t, data);
    assert filled.Obj? && "metadata" in filled.fields && filled.fields["metadata"] == Filled(metadata, data);
    assert filled.fields["metadata"].Obj? && "selector" in filled.fields["metadata"].fields;
  }

  lemma SelectorStrings(t: Json, data: Data)
    requires SelectorIn(t).Some? && Strings(t, data)
    ensures Strings(SelectorIn(t).value, data)
  {
    SelectorSteps(t);
    StringsBelow(t, Field("metadata"), data);
    StringsBelow(t.fields["metadata"], Field("selector"), data);
  }

  /** Where expressions have strings as values, a selector is left of a template that has one. */
  lemma TemplateSelector(t: Json, data: Data)
    requires HasSelector(t) && Strings(t, data)
    ensures HasSelector(Filled(t, data))
  {
    hide Strings, Filled;
    SelectorStrings(t, data);
    SelectorFilled(t, data);
    var fields := SelectorIn(t).value.fields;
    MemberStays(fields, "matchLabels", data);
    MemberStays(fields, "matchExpressions", data);
    LabelsFilled(Member(fields, "matchLabels"), data);
    RequirementsFilled(Member(fields, "matchExpressions"), data);
  }

  /** What may stand in the place of a label. */
  predicate LabelValue(v: Json) {
    IsText(v) || v.Omit?
  }

  lemma CleanText(v: Json)
    ensures IsText(Clean(v)) <==> IsText(v)
  {
  }

  lemma LabelFilled(labels: map<string, Json>, k: string, data: Data)
    requires k in labels ==> labels[k].Str?
    ensures Filled(Obj(labels), data).Obj? && (k in Filled(Obj(labels), data).fields ==> k in labels)
    ensures k in labels ==>
              var filled, e := Filled(Obj(labels), data).fields, LeafExpr(labels[k].s);
              k in filled && !IsText(filled[k]) <==> e.Some? && e.value in data && !LabelValue(data[e.value])
  {
    hide LeafExpr;
    if k in labels {
      CleanText(Substituted(labels[k], data));
    }
  }

  /** If expressions occur in labels only, a selector is left exactly if labels become strings or are omitted. */
  lemma LabelsFilledIff(t: Json, labels: map<string, Json>, data: Data)
    requires SelectorIn(t) == Some(Obj(map["matchLabels" := Obj(labels)])) && forall k | k in labels :: labels[k].Str?
    ensures HasSelector(Filled(t, data)) <==>
            forall k | k in labels && LeafExpr(labels[k].s).Some? && LeafExpr(labels[k].s).value in data ::
              LabelValue(data[LeafExpr(labels[k].s).value])
  {
    hide LeafExpr, LabelValue, IsText, Filled;
    SelectorFilled(t, data);
    var fields := map["matchLabels" := Obj(labels)];
    MemberFilled(fields, "matchLabels", data);
    MemberFilled(fields, "matchExpressions", data);
    NullStrings(data);
    LabelFilled(labels, "", data);
    var filled := Filled(Obj(labels), data).fields;
    assert HasSelector(Filled(t, data)) <==> forall k | k in filled :: IsText(filled[k]);
    forall k: string
      ensures k in filled ==> k in labels
      ensures k in labels ==>
                var e := LeafExpr(labels[k].s);
                k in filled && !IsText(filled[k]) <==> e.Some? && e.value in data && !LabelValue(data[e.value])
    {
      LabelFilled(labels, k, data);
    }
  }

  // ---- What the builder can say of such a template. ----

  lemma FieldsAreStrings(spec: Spec, data: Data)
    requires FieldsOfTemplate(spec) && AllStrings(spec.vars, data)
    ensures Strings(spec.template, data)
  {
    hide ExprAt, Print;
    var t, ds := spec.template, Descriptors(spec.vars);
    var ps :| AllPlaces(t, ps) && DescribesEach(t, [], ds, ps);
    forall p | ExprAt(t, p).Some? && ExprAt(t, p).value in data ensures data[ExprAt(t, p).value].Str? {
      var i :| 0 <= i < |ps| && ps[i] == p;
      assert spec.vars[i] in spec.vars && ds[i].expr == spec.vars[i].expr.original;
    }
  }

  /** A template that has a selector as it stands is what the theorems about all walks ask of an external collection. */
  lemma SelectorIsProper(spec: Spec)
    requires spec.kind.ExternalCollection? && FieldsOfTemplate(spec) && HasSelector(spec.template)
    requires forall v | v in spec.vars :: !v.iteration
    ensures ProperSelector(spec) && Renders(spec)
  {
    hide FieldsOfTemplate, HasSelector, Rendered;
    forall data | Covers(spec.vars, data)
      ensures Rendered(spec.template, Descriptors(spec.vars), data).Some?
      ensures AllStrings(spec.vars, data) ==> HasSelector(Rendered(spec.template, Descriptors(spec.vars), data).value)
    {
      RenderedSubstitutes(spec, data);
      if AllStrings(spec.vars, data) {
        FieldsAreStrings(spec, data);
        TemplateSelector(spec.template, data);
      }
    }
  }

  // ---- A graph with a label that is filled in. ----

  function Place(name: string): Path {
    [Field("metadata"), Field("selector"), Field("matchLabels"), Field(name)]
  }

  /** The value of the label is an expression. */
  function Selecting(name: string, text: string): Json {
    Obj(map["metadata" := Obj(map["selector" := Obj(map["matchLabels" := Obj(map[name := Str("${" + text + "}")])])])])
  }

  function ChannelVars(name: string, text: string): seq<Variable> {
    [Variable(Print(Place(name)), Expr(text, {INSTANCE}), false)]
  }

  /** One external collection, selected by a label whose value is an expression on the instance. */
  function ChannelGraph(c: ID, name: string, text: string): ResourceGraph {
    ResourceGraph([c],
                  map[c := PlainNode(ExternalCollection, []).(template := Selecting(name, text), vars := ChannelVars(name, text))],
                  PlainNode(Instance, []))
  }

  ghost predicate Channel(c: ID, name: string, text: string) {
    c != INSTANCE && Carriable(Field(name)) && Tokens.IsExpression(text)
  }

  /** What the expression says of the instance. */
  function Says(text: string, v: Json): Oracle {
    (asked: string, ctx: Ctx) => if asked == text && INSTANCE in ctx then Value(v) else Pending
  }

  lemma LabelIsExpr(text: string)
    requires Tokens.IsExpression(text)
    ensures LeafExpr("${" + text + "}") == Some(text)
  {
    hide Tokens.IsExpression, Scanner.Compile;
    var ps := [Scanner.Code(text)];
    Scanner.CompileRender(ps);
    assert Scanner.Render(ps[1..]) == "";
    assert Scanner.Render(ps) == "${" + text + "}";
  }

  lemma OneMember(name: string, x: Json, p: Path)
    ensures ExprAt(Obj(map[name := x]), p) == if p != [] && p[0] == Field(name) then ExprAt(x, p[1..]) else None
  {
    hide LeafExpr;
  }

  lemma OneLeaf(text: string, p: Path)
    requires Tokens.IsExpression(text)
    ensures ExprAt(Str("${" + text + "}"), p) == if p == [] then Some(text) else None
  {
    hide LeafExpr, Tokens.IsExpression;
    LabelIsExpr(text);
  }

  /** The expression is all there is. */
  lemma ChannelPlaces(name: string, text: string)
    requires Tokens.IsExpression(text)
    ensures AllPlaces(Selecting(name, text), [Place(name)])
    ensures ExprAt(Selecting(name, text), Place(name)) == Some(text)
  {
    hide ExprAt, Tokens.IsExpression;
    forall p ensures ExprAt(Selecting(name, text), p) == if p == Place(name) then Some(text) else None {
      ChannelExpr(name, text, p);
    }
  }

  lemma ChannelExpr(name: string, text: string, p: Path)
    requires Tokens.IsExpression(text)
    ensures ExprAt(Selecting(name, text), p) == if p == Place(name) then Some(text) else None
  {
    hide ExprAt, Tokens.IsExpression;
    var leaf := Str("${" + text + "}");
    var labels := Obj(map[name := leaf]);
    var selector := Obj(map["matchLabels" := labels]);
    OneMember("metadata", Obj(map["selector" := selector]), p);
    if p != [] {
      OneMember("selector", selector, p[1..]);
      if p[1..] != [] {
        OneMember("matchLabels", labels, p[1..][1..]);
        if p[1..][1..] != [] {
          var last := p[1..][1..][1..];
          OneMember(name, leaf, last);
          if last != [] {
            OneLeaf(text, last[1..]);
            assert |p| == 4 ==> p == [p[0], p[1], p[2], p[3]];
          }
        }
      }
    }
  }

  function ChannelSpec(name: string, text: string): Spec {
    Spec(ExternalCollection, {INSTANCE}, Selecting(name, text), ChannelVars(name, text), [], [], [])
  }

  lemma ChannelFields(name: string, text: string)
    requires Carriable(Field(name)) && Tokens.IsExpression(text)
    ensures FieldsOfTemplate(ChannelSpec(name, text))
  {
    hide ExprAt, Tokens.IsExpression, Print, AllPlaces, Carriable;
    var spec, ps := ChannelSpec(name, text), [Place(name)];
    ChannelPlaces(name, text);
    assert [] + ps[0] == ps[0];
    assert DescribesEach(spec.template, [], Descriptors(spec.vars), ps);
    PlaceCarriable(name);
    forall p | ExprAt(spec.template, p).Some? ensures p == Place(name) {
      ChannelExpr(name, text, p);
    }
  }

  lemma PlaceCarriable(name: string)
    requires Carriable(Field(name))
    ensures AllCarriable(Place(name))
  {
    forall k | 0 <= k < 4 ensures Carriable(Place(name)[k]) {
      if k < 3 {
        var field := Place(name)[k].name;
        assert forall i | 0 <= i < |field| :: field[i] !in {'.', '['};
      }
    }
  }

  lemma ChannelSelector(name: string, text: string)
    ensures SelectorIn(Selecting(name, text)) == Some(Obj(map["matchLabels" := Obj(map[name := Str("${" + text + "}")])]))
    ensures HasSelector(Selecting(name, text))
  {
    hide SelectorIn;
    SelectorSteps(Selecting(name, text));
  }

  /** The world of the example, whatever is observed. */
  ghost predicate ChannelWorld(w: World, rank: map<ID, nat>, c: ID, name: string, text: string, v: Json) {
    && Channel(c, name, text) && WellWired(w) && Ranked(w, rank) && w.eval == Says(text, v) && w.specs.Keys == {c, INSTANCE}
    && w.specs[INSTANCE] == Spec(Instance, {}, Obj(map[]), [], [], [], []) && w.specs[c] == ChannelSpec(name, text)
    && INSTANCE in w.observed
  }

  /** A selector is left of the template if the value may stand in the place of a label. */
  lemma ChannelRendered(name: string, text: string, v: Json)
    requires Carriable(Field(name)) && Tokens.IsExpression(text)
    ensures var obj := Rendered(Selecting(name, text), Descriptors(ChannelVars(name, text)), map[text := v]);
            obj.Some? && (HasSelector(obj.value) <==> LabelValue(v))
  {
    hide FieldsOfTemplate, HasSelector, Rendered, SelectorIn, Tokens.IsExpression, Filled, LabelValue, LeafExpr;
    var spec, data := ChannelSpec(name, text), map[text := v];
    ChannelFields(name, text);
    ChannelSelector(name, text);
    RenderedSubstitutes(spec, data);
    var labels := map[name := Str("${" + text + "}")];
    LabelIsExpr(text);
    LabelsFilledIff(spec.template, labels, data);
    assert name in labels;
    assert Rendered(spec.template, Descriptors(spec.vars), data) == Some(Filled(spec.template, data)) by {
      FilledIs(spec.template, data);
    }
  }

  lemma FilledIs(t: Json, data: Data)
    ensures Filled(t, data) == Clean(Substituted(t, data))
  {
  }

  /** Whatever the walk, the external collection can be asked for if and only if the value may be a label's. */
  lemma ChannelSelected(w: World, rank: map<ID, nat>, walk: Walk, s: State, c: ID, name: string, text: string, v: Json)
    requires ChannelWorld(w, rank, c, name, text, v) && Picks(walk) && s.memory.cache == map[] && s.desired == map[] && s.ok
    ensures forall id | id in [c] :: id in w.specs
    ensures var e := SelectFrom(w, rank, walk, s, [c], 0); e.out == s.out && (e.ok <==> LabelValue(v))
  {
    hide WellWired, Ranked, Rendered, HasSelector, Carriable, Tokens.IsExpression, LabelValue, Selecting;
    var m := s.memory;
    ChannelRendered(name, text, v);
    assert DependenciesFrom(w, rank, walk, m, map[], c, {INSTANCE}) == (IsReady, Memory(m.cache, m.tick + 1)) by {
      assert walk(m.tick, {INSTANCE}) == INSTANCE;
      assert {INSTANCE} - {INSTANCE} == {};
    }
    ChannelBase(w, rank, c, name, text, v);
    var e := SelectNow(w, rank, walk, s, c);
    assert e.out == s.out && (e.ok <==> LabelValue(v));
    assert SelectFrom(w, rank, walk, e, [c], 1) == e;
  }

  lemma ChannelBase(w: World, rank: map<ID, nat>, c: ID, name: string, text: string, v: Json)
    requires ChannelWorld(w, rank, c, name, text, v)
    ensures var vars := ChannelVars(name, text);
            BaseFrom(w, map[], c, Originals(vars, false), 0, map[]) == (Done(map[text := v]), map[Key.Text(text) := v])
  {
    hide WellWired, Ranked, Channel, Selecting, Print;
    var vars, e := ChannelVars(name, text), Expr(text, {INSTANCE});
    var only := Originals(vars, false);
    assert vars[0] in vars && text in only;
    assert FieldRefs(vars, only) == {INSTANCE};
    var ctx := NodeContext(w, c, {INSTANCE});
    assert INSTANCE in FilterContext(ctx, e.refs);
    LookNew(w.eval, map[], Key.Text(text), e, ctx);
    assert BaseFrom(w, map[Key.Text(text) := v], c, only, 1, map[text := v]) == (Done(map[text := v]), map[Key.Text(text) := v]);
  }

  /** What has been found is observed, and no resource is composed yet. */
  function ChannelRequest(c: ID, instance: Json, found: seq<Json>): Request {
    Request(instance, map[c := found], map[])
  }

  lemma ChannelBuilt(c: ID, name: string, text: string, instance: Json, found: seq<Json>)
    requires Channel(c, name, text)
    ensures var g, req := ChannelGraph(c, name, text), ChannelRequest(c, instance, found);
            Built(g) && Consistent(g) && Elems(g.order) == {c} == g.nodes.Keys && Groups(g, req, map[]) && Provides(g, req.external)
  {
    hide Channel, Selecting, Print;
    var g, req := ChannelGraph(c, name, text), ChannelRequest(c, instance, found);
    assert c != INSTANCE by {
      ChannelID(c, name, text);
    }
    assert g.order[0] == c && g.order[..0] == [];
    assert Elems(g.order) == {c};
    assert Elems(g.nodes[c].dependencies) == {};
    assert IsTopological(DependencyGraph(g), g.order);
    forall e | e in AllAsked(g) ensures e == Expr(text, {INSTANCE}) {
    }
    assert Naming.Grouped(req.composed, g.nodes.Keys, Collections(g), map[], map[]);
  }

  lemma ChannelID(c: ID, name: string, text: string)
    requires Channel(c, name, text)
    ensures c != INSTANCE
  {
  }

  lemma ChannelSpecs(c: ID, name: string, text: string)
    requires Channel(c, name, text)
    ensures var g := ChannelGraph(c, name, text);
            && Elems(g.order) <= g.nodes.Keys
            && WiredSpecs(g, SeenIn(g)) == map[c := ChannelSpec(name, text), INSTANCE := Spec(Instance, {}, Obj(map[]), [], [], [], [])]
  {
    hide SeenIn, IsTopological, Consistent, Channel, Selecting, Print, Groups, Provides;
    var g := ChannelGraph(c, name, text);
    ChannelID(c, name, text);
    ChannelBuilt(c, name, text, Null, []);
    SharingUnnoticedIff(g);
    UnsharedSpec(g, g.nodes[c]);
    UnsharedSpec(g, InstanceOf(g));
    assert Linked(g, g.nodes[c]) == {INSTANCE};
    assert Linked(g, InstanceOf(g)) == {};
  }

  lemma ChannelInWorld(c: ID, name: string, text: string, v: Json, instance: Json, found: seq<Json>, max: int)
    requires Channel(c, name, text)
    ensures var g, req, eval := ChannelGraph(c, name, text), ChannelRequest(c, instance, found), Says(text, v);
            && Elems(g.order) <= g.nodes.Keys
            && Runnable(g, FoundWorld(g, req, eval, max)) && Runnable(g, WorldFor(g, req, map[], eval, max))
            && ChannelWorld(FoundWorld(g, req, eval, max), Ranks(g), c, name, text, v)
            && ChannelWorld(WorldFor(g, req, map[], eval, max), Ranks(g), c, name, text, v)
  {
    hide IsTopological, Built, Groups, WiredSpecs, SeenIn, WellWired, WorldFor, Ranks, Ranked, Channel, Selecting, Print, Says;
    var g, req, eval := ChannelGraph(c, name, text), ChannelRequest(c, instance, found), Says(text, v);
    ChannelBuilt(c, name, text, instance, found);
    ChannelSpecs(c, name, text);
    ChannelID(c, name, text);
    IsRunnable(g, req, map[], eval, max);
    ObservedOf(g, req, map[], eval, max);
    ObservedOf(g, req.(composed := map[]), map[], eval, max);
  }

  lemma BlankRenders(spec: Spec)
    requires spec.vars == []
    ensures Renders(spec)
  {
    assert Descriptors([]) == [];
  }

  /** The graph is of the kind that the theorems about all walks are about. */
  lemma ChannelProper(c: ID, name: string, text: string, max: int)
    requires Channel(c, name, text) && max >= 1
    ensures Elems(ChannelGraph(c, name, text).order) <= ChannelGraph(c, name, text).nodes.Keys
    ensures ProperGraph(ChannelGraph(c, name, text), max)
  {
    hide SeenIn, WiredSpecs, Selecting, ChannelVars, Channel, HasExpr, ProperSpec;
    var g := ChannelGraph(c, name, text);
    ChannelSpecs(c, name, text);
    ChannelID(c, name, text);
    var w := Unobserved(g, max);
    ChannelSpecProper(w, c, name, text);
    forall id, e | id in w.specs && HasExpr(w.specs[id], e) ensures e == Expr(text, {INSTANCE}) {
      ChannelHasExpr(name, text, w.specs[id], e);
    }
  }

  lemma ChannelHasExpr(name: string, text: string, spec: Spec, e: Expr)
    requires spec in {ChannelSpec(name, text), Spec(Instance, {}, Obj(map[]), [], [], [], [])} && HasExpr(spec, e)
    ensures e == Expr(text, {INSTANCE})
  {
    hide ChannelVars, Selecting;
    ChannelAsked(name, text);
  }

  lemma ChannelSpecProper(w: World, c: ID, name: string, text: string)
    requires Channel(c, name, text)
    requires w.specs == map[c := ChannelSpec(name, text), INSTANCE := Spec(Instance, {}, Obj(map[]), [], [], [], [])]
    ensures ProperSpec(w, w.specs[c]) && ProperSpec(w, w.specs[INSTANCE]) && DimensionTexts(w) == {}
  {
    hide Selecting, ChannelVars, Carriable, Tokens.IsExpression, FieldsOfTemplate, HasSelector, ProperSelector, Renders;
    ChannelFields(name, text);
    ChannelSelector(name, text);
    ChannelAsked(name, text);
    SelectorIsProper(w.specs[c]);
    BlankRenders(w.specs[INSTANCE]);
    assert ProperSelector(w.specs[INSTANCE]) by {
      NoSelector(w.specs[INSTANCE]);
    }
  }

  lemma NoSelector(spec: Spec)
    requires !spec.kind.External? && !spec.kind.ExternalCollection?
    ensures ProperSelector(spec)
  {
  }

  lemma SaysReads(text: string, v: Json)
    ensures Monotone(Says(text, v)) && ReadsOnly(Says(text, v), text, {INSTANCE})
  {
    var eval := Says(text, v);
    forall ctx ensures eval(text, ctx) == eval(text, OnlyThese(ctx, {INSTANCE})) {
    }
  }

  lemma ChannelRight(c: ID, name: string, text: string, v: Json)
    requires Channel(c, name, text)
    ensures Monotone(Says(text, v)) && RightReferences(ChannelGraph(c, name, text), Says(text, v))
  {
    hide Channel, Selecting, Print, Monotone, ReadsOnly, Says;
    var g, eval := ChannelGraph(c, name, text), Says(text, v);
    ChannelID(c, name, text);
    SaysReads(text, v);
    assert RightNode(g, eval, g.nodes[c], c);
  }

  lemma SingleApart(w: World, id: ID)
    requires WellWired(w) && id in w.specs && w.specs[id].forEach == []
    ensures ItemsApart(w, id) && BoundedDimensions(w, w.specs[id])
  {
    hide WellWired, BaseData;
    assert Bindings(w, id) == Some([]);
    assert DistinctIdentities([]);
    forall base ensures ItemsOf(w, id, base, []) == Some([]) {
    }
  }

  /** A world of the example has no faults if the value may be a label's. */
  lemma ChannelFaultless(w: World, rank: map<ID, nat>, c: ID, name: string, text: string, v: Json)
    requires ChannelWorld(w, rank, c, name, text, v) && LabelValue(v)
    ensures WellWired(w) && Adequate(w) && Faultless(w) && SelectorsFaultless(w)
  {
    hide WellWired, Ranked, Carriable, Tokens.IsExpression, Selecting, Print, LabelValue, Rendered, HasSelector, FieldsOfTemplate, ReadsOnly;
    hide ItemsApart, BoundedDimensions, Renders, BaseData, ChannelVars;
    ChannelFields(name, text);
    ChannelSelector(name, text);
    ChannelRendered(name, text, v);
    ChannelAsked(name, text);
    SelectorIsProper(ChannelSpec(name, text));
    BlankRenders(w.specs[INSTANCE]);
    ChannelData(w, rank, c, name, text, v);
    SaysReads(text, v);
    forall id | id in w.specs ensures ItemsApart(w, id) && BoundedDimensions(w, w.specs[id]) && AdequateSpec(w, id) {
      SingleApart(w, id);
    }
    assert SelectorFaultless(w, w.specs[c]) && SelectorFaultless(w, w.specs[INSTANCE]);
  }

  lemma ChannelAsked(name: string, text: string)
    ensures forall x | x in ChannelVars(name, text) :: !x.iteration && x.expr == Expr(text, {INSTANCE})
    ensures Originals(ChannelVars(name, text), false) == {text}
  {
    hide Print;
    var vars := ChannelVars(name, text);
    assert vars[0] in vars;
  }

  lemma ChannelData(w: World, rank: map<ID, nat>, c: ID, name: string, text: string, v: Json)
    requires ChannelWorld(w, rank, c, name, text, v)
    ensures WellWired(w) && BaseData(w, ChannelVars(name, text)) == Some(map[text := v])
  {
    hide WellWired, Ranked, Channel, ChannelVars;
    ChannelAsked(name, text);
    var ctx := FullContext(w);
    assert INSTANCE in ctx;
    assert w.eval(text, ctx) == Value(v);
    assert AllValues(w.eval, {text}, ctx);
    assert Values(w.eval, {text}, ctx) == map[text := v];
  }

  /**
    An expression in the place of a label decides by its value, and by nothing else, about every reconciliation of the
    graph: it succeeds exactly if the value is a string, null or omitted. Then the graph, which the builder can produce, is
    one of those that the theorems about all walks are about, and no reconciliation of it is at fault.
   */
  lemma LabelDecides(c: ID, name: string, text: string, v: Json, instance: Json, found: seq<Json>, max: int, before: map<string, Composed>)
    requires Channel(c, name, text)
    ensures var g, req, eval := ChannelGraph(c, name, text), ChannelRequest(c, instance, found), Says(text, v);
            && Built(g) && Consistent(g) && Elems(g.order) <= g.nodes.Keys && (max >= 1 ==> ProperGraph(g, max))
            && Groups(g, req, map[]) && Provides(g, req.external) && Monotone(eval) && RightReferences(g, eval)
            && (forall walk, ok, out | RunsTo(g, req, map[], eval, max, walk, before, ok, out) :: ok <==> LabelValue(v))
            && (LabelValue(v) <==> Unfailing(g, req, map[], eval, max))
  {
    hide IsTopological, Built, Consistent, Groups, Provides, WorldFor, FoundWorld, WellWired, Ranks, Ranked, Says, Selecting, Print;
    hide Channel, LabelValue, RunFrom, SelectFrom, ProperGraph, Monotone, RightReferences;
    var g, req, eval := ChannelGraph(c, name, text), ChannelRequest(c, instance, found), Says(text, v);
    ChannelBuilt(c, name, text, instance, found);
    if max >= 1 {
      ChannelProper(c, name, text, max);
    }
    ChannelRight(c, name, text, v);
    ChannelInWorld(c, name, text, v, instance, found, max);
    var u, w := FoundWorld(g, req, eval, max), WorldFor(g, req, map[], eval, max);
    forall walk, ok, out | RunsTo(g, req, map[], eval, max, walk, before, ok, out) ensures ok <==> LabelValue(v) {
      var s := Selected(g, u, walk, before);
      ChannelSelected(u, Ranks(g), walk, Beginning(before), c, name, text, v);
      if s.ok {
        ChannelVisited(w, Ranks(g), walk, s, c, name, text, v);
      }
    }
    ChannelUnfailing(u, w, Ranks(g), c, name, text, v);
  }

  lemma ChannelVisited(w: World, rank: map<ID, nat>, walk: Walk, s: State, c: ID, name: string, text: string, v: Json)
    requires ChannelWorld(w, rank, c, name, text, v) && Picks(walk)
    ensures (forall id | id in [c] :: id in w.specs) && RunFrom(w, rank, walk, s, [c], 0) == s
  {
    hide WellWired, Ranked, Channel, Selecting, Print;
    assert VisitNow(w, rank, walk, s, c) == s;
    assert RunFrom(w, rank, walk, s, [c], 1) == s;
  }

  lemma ChannelUnfailing(u: World, w: World, rank: map<ID, nat>, c: ID, name: string, text: string, v: Json)
    requires ChannelWorld(u, rank, c, name, text, v) && ChannelWorld(w, rank, c, name, text, v)
    ensures LabelValue(v) <==> WellWired(u) && WellWired(w) && Adequate(w) && Faultless(w) && SelectorsFaultless(u)
  {
    hide WellWired, Ranked, LabelValue, Adequate, Faultless, Selecting, Print, Rendered, HasSelector;
    if LabelValue(v) {
      ChannelFaultless(u, rank, c, name, text, v);
      ChannelFaultless(w, rank, c, name, text, v);
    } else {
      ChannelData(u, rank, c, name, text, v);
      ChannelRendered(name, text, v);
      assert !SelectorFaultless(u, u.specs[c]);
    }
  }

  /** An expression without quotation marks, braces and dollar signs. */
  lemma {:induction false} SimpleExpression(e: string) returns (ts: seq<Tokens.Token>)
    requires forall k | 0 <= k < |e| :: e[k] !in {'"', '{', '}', '$'}
    ensures Tokens.Proper(ts, false) && Tokens.Spell(ts) == e && forall t | t in ts :: t.Char?
  {
    if e == "" {
      ts := [];
    } else {
      var rest := SimpleExpression(e[1..]);
      ts := [Tokens.Char(e[0])] + rest;
      assert ts[1..] == rest;
    }
  }

  /** There are such graphs. */
  lemma LabelsExist()
    ensures Channel("subscribers", "notification-channel", "schema.metadata.name")
  {
    var c, name, text := "subscribers", "notification-channel", "schema.metadata.name";
    assert c[1] != INSTANCE[1];
    assert forall k | 0 <= k < |name| :: name[k] !in {'.', '['};
    var ts := SimpleExpression(text);
  }
}
