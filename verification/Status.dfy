/** The partial status of the instance: `softResolve` in `kro/runtime/node_resolve.go`. */
module Status {
  import opened Text
  import opened Trees
  import opened FieldPath
  import opened Resolver
  import opened Template
  import opened Graphs
  import opened World
  import opened Adequacy
  import opened Reconcile
  import opened Nodes
  import opened Walks
  import opened Meanings

  const STATUS := Field("status")

  /** Where an expression of the status template stands in the whole object. */
  function Place(p: Path): Path {
    [STATUS] + p
  }

  /** The path string that the graph builder makes of a path into the status. */
  function StatusPath(p: Path): string {
    "status." + Print(p)
  }

  lemma StatusRound(tail: string)
    ensures Round("status." + tail) == Found([STATUS], tail)
  {
    var s := "status." + tail;
    SpanOf(s, {'.', '['}, 6);
    assert s[..6] == "status" && s[6..] == "." + tail;
    assert UnquotedField(s) == Found("status", "." + tail);
    assert ("." + tail)[1..] == tail;
    assert [STATUS] + [] == [STATUS];
  }

  lemma StatusPathParses(p: Path)
    requires AllCarriable(p)
    ensures Parsed(StatusPath(p)) == Ok(Place(p)) && StatusPath(p) == "status." + Print(p) && Place(p) == [Field("status")] + p
  {
    hide Round, Print;
    PrintParsesIff(p);
    StatusRound(Print(p));
  }

  /** One evaluated expression and its place. */
  datatype Entry = Entry(place: Path, value: Json)

  /** The places are expressions of one template, so the containers on the way to them are those of the template. */
  predicate FromTemplate(t: Json, es: seq<Entry>) {
    && t.Obj?
    && (forall i | 0 <= i < |es| :: es[i].place != [] && Get(t, es[i].place).Some?)
    && forall i, j | 0 <= i < |es| && 0 <= j < |es| && i != j :: Unrelated(es[i].place, es[j].place)
  }

  function Upserted(dest: Json, es: seq<Entry>): Written {
    if es == [] then Written(dest, true)
    else
      var w := Upserted(dest, es[..|es| - 1]);
      if w.ok then Put(w.tree, es[|es| - 1].place, es[|es| - 1].value) else w
  }

  predicate Touches(es: seq<Entry>, q: Path) {
    exists i | 0 <= i < |es| :: es[i].place <= q || q <= es[i].place
  }

  /** Every value is where it belongs, on the way to it stand the template's containers, and all else is gaps. */
  ghost predicate Filled(dest: Json, es: seq<Entry>) {
    && (forall i | 0 <= i < |es| :: Get(dest, es[i].place) == Some(es[i].value))
    && (forall i, k | 0 <= i < |es| && 0 <= k < |es[i].place| ::
          Get(dest, es[i].place[..k]).Some? && Matches(Get(dest, es[i].place[..k]).value, es[i].place[k]))
    && forall q | Get(dest, q).Some? :: q <= [STATUS] || Touches(es, q) || IsGap(dest, q)
  }

  lemma WayInTemplate(t: Json, p: Path, k: nat)
    requires Get(t, p).Some? && k < |p|
    ensures Get(t, p[..k]).Some? && Matches(Get(t, p[..k]).value, p[k])
    decreases |p|
  {
    if k > 0 {
      WayInTemplate(At(t, p[0]), p[1..], k - 1);
      assert p[..k][1..] == p[1..][..k - 1];
    }
  }

  lemma PlacesUnrelated(t: Json, es: seq<Entry>, n: nat)
    requires FromTemplate(t, es) && n < |es|
    ensures FromTemplate(t, es[..n])
    ensures forall i | 0 <= i < n :: Unrelated(es[i].place, es[n].place)
  {
  }

  lemma PrefixOfPrefix(a: Path, p: Path, k: nat)
    requires k <= |p|
    ensures a <= p[..k] ==> a <= p
  {
  }

  const START := Obj(map["status" := Obj(map[])])

  /** The object and its status are objects. */
  predicate Based(dest: Json) {
    dest.Obj? && Get(dest, [STATUS]).Some? && Get(dest, [STATUS]).value.Obj?
  }

  predicate InStatus(p: Path) {
    |p| >= 2 && p[0] == STATUS && p[1].Field?
  }

  /** Two places that share a way agree on the kinds of the containers along it. */
  lemma SameKinds(t: Json, p: Path, q: Path, k: nat)
    requires Get(t, p).Some? && Get(t, q).Some? && k < |p| && k < |q| && p[..k] == q[..k]
    ensures p[k].Index? <==> q[k].Index?
  {
    WayInTemplate(t, p, k);
    WayInTemplate(t, q, k);
  }

  lemma StillBased(dest: Json, p: Path, v: Json)
    requires InStatus(p) && Put(dest, p, v).ok
    ensures Based(Put(dest, p, v).tree)
  {
    PutBuildsWay(dest, p, v, 0);
    PutBuildsWay(dest, p, v, 1);
    assert p[..1] == [STATUS] && p[..0] == [];
  }

  /** The containers that are there already are of the right kind for one more place of the template. */
  lemma OneMoreFits(t: Json, dest: Json, es: seq<Entry>, p: Path)
    requires FromTemplate(t, es) && Filled(dest, es) && p != [] && Get(t, p).Some?
    requires forall i | 0 <= i < |es| :: Unrelated(es[i].place, p)
    requires InStatus(p) && Based(dest)
    ensures Fits(dest, p)
  {
    assert p[..0] == [] && p[..1] == [STATUS];
    forall k | 0 <= k < |p|
      ensures var g := Get(dest, p[..k]); g.None? || (k > 0 && g.value == Null) || Matches(g.value, p[k])
    {
      var q := p[..k];
      if k > 1 && Get(dest, q).Some? && Get(dest, q) != Some(Null) {
        assert !(q <= [STATUS]);
        assert Touches(es, q);
        var i :| 0 <= i < |es| && (es[i].place <= q || q <= es[i].place);
        PrefixOfPrefix(es[i].place, p, k);
        assert es[i].place[..k] == q;
        SameKinds(t, es[i].place, p, k);
      }
    }
  }

  /** One more value: the others stay, and nothing new appears beside it but gaps. */
  lemma OneMoreFilled(t: Json, dest: Json, es: seq<Entry>, e: Entry)
    requires FromTemplate(t, es + [e]) && Filled(dest, es) && Put(dest, e.place, e.value).ok
    ensures Filled(Put(dest, e.place, e.value).tree, es + [e])
  {
    var p, more, dest' := e.place, es + [e], Put(dest, e.place, e.value).tree;
    assert more[|es|] == e && forall i | 0 <= i < |es| :: more[i] == es[i] && Unrelated(es[i].place, p);
    PutGet(dest, p, e.value);
    forall i | 0 <= i < |es| ensures Get(dest', es[i].place) == Some(es[i].value) {
      PutFrame(dest, p, e.value, es[i].place);
    }
    forall i, k | 0 <= i < |more| && 0 <= k < |more[i].place|
      ensures Get(dest', more[i].place[..k]).Some? && Matches(Get(dest', more[i].place[..k]).value, more[i].place[k])
    {
      WayStays(t, dest, es, e, i, k);
    }
    forall q | Get(dest', q).Some? ensures q <= [STATUS] || Touches(more, q) || IsGap(dest', q) {
      if Unrelated(p, q) {
        PutAddsOnlyGaps(dest, p, e.value, q);
        if Touches(es, q) {
          var i :| 0 <= i < |es| && (es[i].place <= q || q <= es[i].place);
          assert more[i] == es[i];
        }
      } else {
        assert more[|es|].place <= q || q <= more[|es|].place;
      }
    }
  }

  lemma UnrelatedWay(p: Path, way: Path, k: nat)
    requires k <= |way| && Unrelated(way, p) && (k < |p| ==> way[..k] != p[..k])
    ensures Unrelated(p, way[..k])
  {
    PrefixOfPrefix(p, way, k);
  }

  lemma WayStays(t: Json, dest: Json, es: seq<Entry>, e: Entry, i: nat, k: nat)
    requires FromTemplate(t, es + [e]) && Filled(dest, es) && Put(dest, e.place, e.value).ok
    requires i <= |es| && k < |(es + [e])[i].place|
    ensures var dest', way := Put(dest, e.place, e.value).tree, (es + [e])[i].place;
            Get(dest', way[..k]).Some? && Matches(Get(dest', way[..k]).value, way[k])
  {
    var p, way := e.place, (es + [e])[i].place;
    if i == |es| || (k < |p| && way[..k] == p[..k]) {
      PutBuildsWay(dest, p, e.value, k);
      assert (es + [e])[|es|] == e;
      SameKinds(t, way, p, k);
    } else {
      assert (es + [e])[|es|] == e && (es + [e])[i] == es[i];
      assert Unrelated(way, p);
      UnrelatedWay(p, way, k);
      PutFrame(dest, p, e.value, way[..k]);
    }
  }

  lemma StartFilled()
    ensures Filled(START, []) && Based(START)
  {
    forall q ensures Get(START, q).Some? ==> q <= [STATUS] {
      if |q| >= 2 && q[0] == STATUS {
        assert Get(START, q) == Get(Obj(map[]), q[1..]);
      }
    }
  }

  /** Writing the values of one template's expressions into an empty status never fails. */
  lemma {:induction false} UpsertsFill(t: Json, es: seq<Entry>)
    requires FromTemplate(t, es) && forall i | 0 <= i < |es| :: InStatus(es[i].place)
    ensures Upserted(START, es).ok && Filled(Upserted(START, es).tree, es) && Based(Upserted(START, es).tree)
  {
    hide Filled, Based;
    if es == [] {
      StartFilled();
    } else {
      var n := |es| - 1;
      UpsertsFill(t, es[..n]);
      var dest := Upserted(START, es[..n]).tree;
      PlacesUnrelated(t, es, n);
      OneMoreFits(t, dest, es[..n], es[n].place);
      PutOkIff(dest, es[n].place, es[n].value);
      assert es[..n] + [es[n]] == es;
      OneMoreFilled(t, dest, es[..n], es[n]);
      StillBased(dest, es[n].place, es[n].value);
    }
  }

  // ---- The method. ----

  /** The fields of the instance are the expressions of its status template. */
  ghost predicate StatusTemplate(t: Json, vars: seq<Variable>, ps: seq<Path>) {
    && Based(t) && |ps| == |vars| && (forall i, j | 0 <= i < j < |ps| :: ps[i] != ps[j])
    && forall i | 0 <= i < |vars| ::
         && !vars[i].iteration && vars[i].path == StatusPath(ps[i]) && AllCarriable(ps[i])
         && ExprAt(t, Place(ps[i])) == Some(vars[i].expr.original)
  }

  /** The values of the fields that have one. */
  ghost predicate AvailableValues(w: World, vars: seq<Variable>, values: Data)
    requires WellWired(w)
  {
    && (forall o | o in values :: w.eval(o, FullContext(w)) == Value(values[o]))
    && (Adequate(w) ==> forall v | v in vars && Fresh(w, v.expr).Value? :: v.expr.original in values)
  }

  /**
    Every value stands in its place, and on the way to it stand containers of the kinds that the place asks for. What
    else can be read is the status itself, part of a value, on the way to one, or a null that fills a gap of an array.
   */
  ghost predicate PartialStatus(dest: Json, vars: seq<Variable>, ps: seq<Path>, values: Data)
    requires |ps| == |vars|
  {
    && Based(dest)
    && (forall i | 0 <= i < |vars| && vars[i].expr.original in values ::
          Get(dest, Place(ps[i])) == Some(values[vars[i].expr.original]))
    && (forall i, k | 0 <= i < |vars| && vars[i].expr.original in values && 0 <= k < |Place(ps[i])| ::
          Get(dest, Place(ps[i])[..k]).Some? && Matches(Get(dest, Place(ps[i])[..k]).value, Place(ps[i])[k]))
    && forall q | Get(dest, q).Some? ::
         q <= [STATUS] || InValue(vars, ps, values, q) || OnTheWay(vars, ps, values, q) || IsGap(dest, q)
  }

  predicate OnTheWay(vars: seq<Variable>, ps: seq<Path>, values: Data, q: Path)
    requires |ps| == |vars|
  {
    exists i | 0 <= i < |vars| :: vars[i].expr.original in values && q < Place(ps[i])
  }

  predicate InValue(vars: seq<Variable>, ps: seq<Path>, values: Data, q: Path)
    requires |ps| == |vars|
  {
    exists i | 0 <= i < |vars| :: vars[i].expr.original in values && Place(ps[i]) <= q
  }

  /** So whatever is neither a container nor null is part of a value: no text of the template is left. */
  lemma ScalarsInValues(dest: Json, vars: seq<Variable>, ps: seq<Path>, values: Data, q: Path)
    requires |ps| == |vars| && PartialStatus(dest, vars, ps, values) && Get(dest, q).Some?
    requires var x := Get(dest, q).value; !x.Arr? && !x.Obj? && !x.Null?
    ensures InValue(vars, ps, values, q)
  {
    assert q <= [STATUS] ==> q == [] || q == [STATUS];
    WayIsContainer(dest, vars, ps, values, q);
  }

  lemma WayIsContainer(dest: Json, vars: seq<Variable>, ps: seq<Path>, values: Data, q: Path)
    requires |ps| == |vars| && PartialStatus(dest, vars, ps, values)
    ensures OnTheWay(vars, ps, values, q) ==> Get(dest, q).Some? && (Get(dest, q).value.Arr? || Get(dest, q).value.Obj?)
  {
    if OnTheWay(vars, ps, values, q) {
      var i :| 0 <= i < |vars| && vars[i].expr.original in values && q < Place(ps[i]);
      assert Place(ps[i])[..|q|] == q;
    }
  }

  lemma PlaceIn(t: Json, vars: seq<Variable>, ps: seq<Path>, i: nat)
    requires StatusTemplate(t, vars, ps) && i < |vars|
    ensures InStatus(Place(ps[i])) && Get(t, Place(ps[i])).Some? && Parsed(vars[i].path) == Ok(Place(ps[i]))
  {
    StatusPathParses(ps[i]);
    assert Get(t, Place(ps[i])) == Get(At(t, STATUS), ps[i]) by {
      assert Place(ps[i])[1..] == ps[i];
    }
    assert Get(t, [STATUS]) == Some(At(t, STATUS)) by {
      assert [STATUS][1..] == [];
    }
  }

  /** The fields that have a value, in their order. */
  function Positions(vars: seq<Variable>, values: Data): seq<nat> {
    if vars == [] then []
    else Positions(vars[..|vars| - 1], values) + if vars[|vars| - 1].expr.original in values then [|vars| - 1] else []
  }

  predicate AllAt(vars: seq<Variable>, values: Data, at: seq<nat>) {
    forall a | 0 <= a < |at| :: at[a] < |vars| && vars[at[a]].expr.original in values
  }

  lemma {:induction false} PositionsKnown(vars: seq<Variable>, values: Data)
    ensures AllAt(vars, values, Positions(vars, values))
    ensures var at := Positions(vars, values);
            && (forall a, b | 0 <= a < b < |at| :: at[a] < at[b])
            && forall i | 0 <= i < |vars| && vars[i].expr.original in values :: i in at
  {
    if vars != [] {
      var n := |vars| - 1;
      PositionsKnown(vars[..n], values);
      var before, at := Positions(vars[..n], values), Positions(vars, values);
      forall a | 0 <= a < |at| ensures at[a] < |vars| && vars[at[a]].expr.original in values {
        if a < |before| {
          assert at[a] == before[a];
        }
      }
      forall i | 0 <= i < |vars| && vars[i].expr.original in values ensures i in at {
        if i < n {
          assert vars[..n][i] == vars[i] && i in before;
        }
      }
    }
  }

  function FieldsAt(vars: seq<Variable>, values: Data, at: seq<nat>): (r: seq<Descriptor>)
    requires AllAt(vars, values, at)
    ensures |r| == |at|
  {
    seq(|at|, a requires 0 <= a < |at| => Descriptor(vars[at[a]].path, vars[at[a]].expr.original))
  }

  function EntriesAt(vars: seq<Variable>, ps: seq<Path>, values: Data, at: seq<nat>): (r: seq<Entry>)
    requires |ps| == |vars| && AllAt(vars, values, at)
    ensures |r| == |at|
  {
    seq(|at|, a requires 0 <= a < |at| => Entry(Place(ps[at[a]]), values[vars[at[a]].expr.original]))
  }

  lemma PlacesApart(t: Json, vars: seq<Variable>, ps: seq<Path>, i: nat, j: nat)
    requires StatusTemplate(t, vars, ps) && i < |vars| && j < |vars| && i != j
    ensures Unrelated(Place(ps[i]), Place(ps[j]))
  {
    assert ps[i] != ps[j];
    assert Place(ps[i])[1..] == ps[i] && Place(ps[j])[1..] == ps[j];
    ExpressionsUnrelated(t, Place(ps[i]), Place(ps[j]));
  }

  /** All fields that have a value are resolved, and the writes into the empty status succeed. */
  lemma ResolvableSucceed(t: Json, vars: seq<Variable>, ps: seq<Path>, values: Data)
    requires StatusTemplate(t, vars, ps)
    ensures var at := Positions(vars, values);
            && AllAt(vars, values, at)
            && (forall a | 0 <= a < |at| ::
                  Outcome(AppliedAll(t, FieldsAt(vars, values, at)[..a], values), FieldsAt(vars, values, at)[a], values) ==
                  Resolved(vars[at[a]].path, values[vars[at[a]].expr.original]))
            && Upserted(START, EntriesAt(vars, ps, values, at)).ok
            && PartialStatus(Upserted(START, EntriesAt(vars, ps, values, at)).tree, vars, ps, values)
  {
    hide StatusTemplate, AppliedAll, Upserted, Filled, InStatus, Place;
    TemplateIsObject(t, vars, ps);
    PositionsKnown(vars, values);
    var at := Positions(vars, values);
    assert AllAt(vars, values, at);
    var ds, es := FieldsAt(vars, values, at), EntriesAt(vars, ps, values, at);
    forall a | 0 <= a < |at|
      ensures InStatus(es[a].place) && Get(t, es[a].place).Some? && Parsed(ds[a].path) == Ok(es[a].place)
    {
      PlaceIn(t, vars, ps, at[a]);
    }
    forall a, b | 0 <= a < |at| && 0 <= b < |at| && a != b ensures Unrelated(es[a].place, es[b].place) {
      PlacesApart(t, vars, ps, at[a], at[b]);
    }
    assert PairwiseApart(ds);
    forall a | 0 <= a < |at| ensures Outcome(AppliedAll(t, ds[..a], values), ds[a], values) == Resolved(ds[a].path, values[ds[a].expr]) {
      OutcomeIndependent(t, ds, values, a);
    }
    UpsertsFill(t, es);
    FilledIsPartial(Upserted(START, es).tree, vars, ps, values);
  }

  lemma TemplateIsObject(t: Json, vars: seq<Variable>, ps: seq<Path>)
    requires StatusTemplate(t, vars, ps)
    ensures t.Obj? && |ps| == |vars| && forall i | 0 <= i < |vars| :: Place(ps[i]) != [] && !vars[i].iteration
  {
  }

  lemma FilledIsPartial(dest: Json, vars: seq<Variable>, ps: seq<Path>, values: Data)
    requires |ps| == |vars| && AllAt(vars, values, Positions(vars, values)) && Based(dest)
    requires Filled(dest, EntriesAt(vars, ps, values, Positions(vars, values)))
    ensures PartialStatus(dest, vars, ps, values)
  {
    PositionsKnown(vars, values);
    var at := Positions(vars, values);
    var es := EntriesAt(vars, ps, values, at);
    forall i | 0 <= i < |vars| && vars[i].expr.original in values
      ensures Get(dest, Place(ps[i])) == Some(values[vars[i].expr.original])
      ensures forall k | 0 <= k < |Place(ps[i])| ::
                Get(dest, Place(ps[i])[..k]).Some? && Matches(Get(dest, Place(ps[i])[..k]).value, Place(ps[i])[k])
    {
      var a :| 0 <= a < |at| && at[a] == i;
      assert es[a].place == Place(ps[i]);
    }
    forall q | Get(dest, q).Some?
      ensures q <= [STATUS] || InValue(vars, ps, values, q) || OnTheWay(vars, ps, values, q) || IsGap(dest, q)
    {
      NothingElse(dest, vars, ps, values, es, q);
    }
  }

  lemma NothingElse(dest: Json, vars: seq<Variable>, ps: seq<Path>, values: Data, es: seq<Entry>, q: Path)
    requires |ps| == |vars| && AllAt(vars, values, Positions(vars, values))
    requires es == EntriesAt(vars, ps, values, Positions(vars, values)) && Filled(dest, es) && Get(dest, q).Some?
    ensures q <= [STATUS] || InValue(vars, ps, values, q) || OnTheWay(vars, ps, values, q) || IsGap(dest, q)
  {
    var at := Positions(vars, values);
    if !(q <= [STATUS]) && Touches(es, q) {
      var a :| 0 <= a < |es| && (es[a].place <= q || q <= es[a].place);
      assert es[a].place == Place(ps[at[a]]) && vars[at[a]].expr.original in values;
    }
  }

  /** The values of all fields whose expressions have one; an error other than pending data ends the evaluation. */
  method EvaluateAvailable(node: Node, ghost net: Net, ghost resolved: Desired) returns (r: Option<Data>)
    requires node.In(net, resolved) && forall i | 0 <= i < |node.templateExprs| :: !node.templateExprs[i].iteration
    modifies net.states
    ensures WellWired(net.w) && node.Paired()
    ensures old(Right(net)) && r.Some? ==> Right(net) && AvailableValues(net.w, node.Vars(), r.value)
    ensures old(Right(net)) && Adequate(net.w) && (forall v | v in node.Vars() :: !Fresh(net.w, v.expr).Fatal?) ==> r.Some?
  {
    hide Node.In, WellWired, Monotone, Adequate, NodeContext, FullContext, FilterContext, Within;
    hide CacheOf, Look, FieldRefs, Originals, Node.Described, Node.Shows, SharedStates, Sound;
    node.TemplateKnown(net, resolved);
    ghost var right, vars, only := Right(net), node.Vars(), Originals(node.Vars(), false);
    var values: Data := map[];
    var ctx := node.BuildContext(FieldRefs(node.Vars(), Originals(node.Vars(), false)), net, resolved);
    for i := 0 to |node.templateExprs|
      invariant right ==> Right(net)
      invariant right ==> forall o | o in values :: net.w.eval(o, FullContext(net.w)) == Value(values[o])
      invariant right && Adequate(net.w) ==>
                  forall j | 0 <= j < i && Fresh(net.w, vars[j].expr).Value? :: vars[j].expr.original in values
    {
      var expr := node.templateExprs[i];
      assert expr in node.templateExprs && vars[i].expr == expr.expr && vars[i] in vars;
      if right {
        AvailableOne(net.w, CacheOf(net), node.id, vars[i], ctx);
      }
      var val := EvalExprAny(expr, ctx, net);
      match val {
        case Pending =>
        case Fatal => return None;
        case Value(v) => values := values[expr.expr.original := v];
      }
    }
    return Some(values);
  }

  lemma AvailableOne(w: World, cache: Cache, id: ID, v: Variable, ctx: Ctx)
    requires WellWired(w) && Monotone(w.eval) && Sound(w, cache) && id in w.specs && v in w.specs[id].vars && !v.iteration
    requires ctx == NodeContext(w, id, FieldRefs(w.specs[id].vars, Originals(w.specs[id].vars, false)))
    ensures var (r, c) := Look(w.eval, cache, Text(v.expr.original), v.expr, ctx);
            Sound(w, c) && (r.Value? ==> r == Fresh(w, v.expr)) && (Adequate(w) ==> r == Fresh(w, v.expr))
  {
    hide WellWired, Monotone, Sound, FullContext, NodeContext, FilterContext, Within, Adequate, Look, Fresh;
    assert v.expr.original in Originals(w.specs[id].vars, false);
    FieldFresh(w, id, Originals(w.specs[id].vars, false), v);
    LookMeans(w, cache, Text(v.expr.original), v.expr, ctx);
  }

  lemma PartialReads(dest: Json, vars: seq<Variable>, ps: seq<Path>, values: Data)
    requires |ps| == |vars| && PartialStatus(dest, vars, ps, values)
    ensures forall i | 0 <= i < |ps| && vars[i].expr.original in values ::
              Get(dest, [Field("status")] + ps[i]) == Some(values[vars[i].expr.original])
  {
    forall i | 0 <= i < |ps| && vars[i].expr.original in values ensures Place(ps[i]) == [Field("status")] + ps[i] {
    }
  }

  /** What can be evaluated is put into an otherwise empty status. */
  method SoftResolve(node: Node, ghost net: Net, ghost resolved: Desired, ghost ps: seq<Path>)
    returns (r: Attempt<Json>, ghost values: Data)
    requires node.In(net, resolved) && node.Paired()
    requires StatusTemplate(node.template, node.Vars(), ps)
    modifies net.states
    ensures WellWired(net.w) && !r.NotYet?
    ensures r.Done? ==> PartialStatus(r.value, node.Vars(), ps, values)
    ensures r.Done? ==> forall i | 0 <= i < |ps| && node.templateExprs[i].expr.original in values ::
              Get(r.value, [Field("status")] + ps[i]) == Some(values[node.templateExprs[i].expr.original])
    ensures old(Right(net)) && r.Done? ==> AvailableValues(net.w, node.Vars(), values)
    ensures old(Right(net)) && Adequate(net.w) && (forall v | v in node.Vars() :: !Fresh(net.w, v.expr).Fatal?) ==> r.Done?
  {
    hide Node.In, WellWired, Adequate, AvailableValues, PartialStatus, AppliedAll, Positions, Clean, Fresh, Upserted, StatusTemplate, Right;
    TemplateIsObject(node.template, node.Vars(), ps);
    ghost var vars, t := node.Vars(), node.template;
    assert forall i | 0 <= i < |node.templateExprs| :: vars[i].iteration == node.templateExprs[i].iteration;
    var available := EvaluateAvailable(node, net, resolved);
    if available.None? {
      return Failure, map[];
    }
    values := available.value;
    ResolvableSucceed(t, vars, ps, values);
    var resolvable := ResolvableFields(node, available.value);
    var templateRes := new TemplateResolver(node.template, available.value);
    var results := templateRes.Resolve(resolvable);
    if exists i | 0 <= i < |results| :: !results[i].Resolved? {
      return Failure, values;
    }
    ghost var es := EntriesAt(vars, ps, values, Positions(vars, values));
    forall i | 0 <= i < |es| ensures Parsed(vars[Positions(vars, values)[i]].path) == Ok(es[i].place) {
      PlaceIn(t, vars, ps, Positions(vars, values)[i]);
    }
    var desired := UpsertAll(results, es);
    assert desired.Some?;
    PartialReads(desired.value, vars, ps, values);
    return if desired.Some? then Done(desired.value) else Failure, values;
  }

  /** Copies resolved values into an empty status; an error if one of them cannot be written. */
  method UpsertAll(results: seq<FieldResult>, ghost es: seq<Entry>) returns (r: Option<Json>)
    requires |results| == |es| && Upserted(START, es).ok
    requires forall i | 0 <= i < |es| ::
               results[i].Resolved? && results[i].replaced == es[i].value && Parsed(results[i].path) == Ok(es[i].place)
    ensures r == Some(Upserted(START, es).tree)
  {
    hide Put;
    var destRes := new TemplateResolver(START, map[]);
    for i := 0 to |results|
      invariant Upserted(START, es[..i]) == Written(destRes.resource, true)
    {
      assert es[..i + 1][..i] == es[..i];
      UpsertedPrefix(START, es, i + 1);
      match results[i] {
        case Resolved(path, replaced) =>
          var ok := destRes.SetValueAtPath(path, replaced);
          if !ok {
            return None;
          }
        case _ =>
      }
    }
    assert es[..|es|] == es;
    return Some(destRes.resource);
  }

  lemma {:induction false} UpsertedPrefix(dest: Json, es: seq<Entry>, k: nat)
    requires k <= |es| && Upserted(dest, es).ok
    ensures Upserted(dest, es[..k]).ok
    decreases |es|
  {
    if k < |es| {
      assert es[..|es| - 1][..k] == es[..k];
      UpsertedPrefix(dest, es[..|es| - 1], k);
    } else {
      assert es[..k] == es;
    }
  }

  /** The fields that have a value. */
  method ResolvableFields(node: Node, values: Data) returns (fields: seq<Descriptor>)
    requires node.Paired()
    ensures var at := Positions(node.Vars(), values);
            AllAt(node.Vars(), values, at) && fields == FieldsAt(node.Vars(), values, at)
  {
    ghost var vars := node.Vars();
    fields := [];
    for i := 0 to |node.templateVars|
      invariant var at := Positions(vars[..i], values);
                AllAt(vars, values, at) && fields == FieldsAt(vars, values, at)
    {
      assert vars[..i + 1][..i] == vars[..i];
      if node.templateExprs[i].expr.original in values {
        fields := fields + [Descriptor(node.templateVars[i], node.templateExprs[i].expr.original)];
      }
    }
    assert vars[..|vars|] == vars;
  }
}
