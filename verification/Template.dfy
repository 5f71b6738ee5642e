/** Templates: finding their expressions and putting the values in. */
module Template {
  import opened Text
  import opened Trees
  import opened FieldPath
  import opened Grafting
  import opened Resolver
  import Scanner

  /** The expression that stands at `p`, if there is one. */
  function ExprAt(t: Json, p: Path): Option<string> {
    match Get(t, p)
    case Some(Str(s)) => LeafExpr(s)
    case _ => None
  }

  function LeafExpr(s: string): Option<string> {
    match Scanner.Compile(s) case Expression(e) => Some(e) case _ => None
  }

  /** Some string of the template has an expression inside an expression. */
  predicate HasNested(t: Json) {
    match t
    case Str(s) => Scanner.Compile(s).NestedExpression?
    case Arr(items) => exists i | 0 <= i < |items| :: HasNested(items[i])
    case Obj(fields) => exists k | k in fields :: HasNested(fields[k])
    case _ => false
  }

  /** `ds` describes the expression at each place of `ps`, as seen from `at`. */
  predicate DescribesEach(t: Json, at: Path, ds: seq<Descriptor>, ps: seq<Path>) {
    && |ds| == |ps|
    && forall i | 0 <= i < |ps| :: ExprAt(t, ps[i]).Some? && ds[i] == Descriptor(Print(at + ps[i]), ExprAt(t, ps[i]).value)
  }

  /** `ps` are the places of all expressions of `t`, each once. */
  ghost predicate AllPlaces(t: Json, ps: seq<Path>) {
    && (forall i, j | 0 <= i < j < |ps| :: ps[i] != ps[j])
    && forall p :: ExprAt(t, p).Some? <==> p in ps
  }

  /** `ds` lists the expressions of `t`, each once, in some order. */
  ghost predicate Describes(t: Json, at: Path, ds: seq<Descriptor>) {
    exists ps :: AllPlaces(t, ps) && DescribesEach(t, at, ds, ps)
  }

  function Below(seg: Segment, ps: seq<Path>): (r: seq<Path>)
    ensures |r| == |ps| && forall i | 0 <= i < |ps| :: r[i] == [seg] + ps[i]
  {
    seq(|ps|, i requires 0 <= i < |ps| => [seg] + ps[i])
  }

  lemma BelowContains(seg: Segment, ps: seq<Path>, p: Path)
    ensures p in Below(seg, ps) <==> p != [] && p[0] == seg && p[1..] in ps
  {
    if p != [] && p[0] == seg && p[1..] in ps {
      var i :| 0 <= i < |ps| && ps[i] == p[1..];
      assert Below(seg, ps)[i] == p;
    }
  }

  /** The places of the expressions below some members of `t`, each once. */
  ghost predicate PlacesBelow(t: Json, segs: iset<Segment>, ps: seq<Path>) {
    && (forall i, j | 0 <= i < j < |ps| :: ps[i] != ps[j])
    && forall p :: p in ps <==> p != [] && p[0] in segs && ExprAt(t, p).Some?
  }

  lemma MemberExpr(t: Json, seg: Segment, p: Path)
    requires Present(t, seg)
    ensures ExprAt(t, [seg] + p) == ExprAt(At(t, seg), p)
  {
    assert ([seg] + p)[1..] == p;
  }

  lemma PlacesOfMember(t: Json, seg: Segment, ps: seq<Path>)
    requires Present(t, seg) && AllPlaces(At(t, seg), ps)
    ensures PlacesBelow(t, iset{seg}, Below(seg, ps))
  {
    var below := Below(seg, ps);
    forall p ensures p in below <==> p != [] && p[0] == seg && ExprAt(t, p).Some? {
      BelowContains(seg, ps, p);
      if p != [] && p[0] == seg {
        assert p == [seg] + p[1..];
        MemberExpr(t, seg, p[1..]);
      }
    }
    forall i, j | 0 <= i < j < |below| ensures below[i] != below[j] {
      assert below[i][1..] == ps[i] && below[j][1..] == ps[j];
    }
  }

  lemma DescribesMember(t: Json, at: Path, seg: Segment, ds: seq<Descriptor>, ps: seq<Path>)
    requires Present(t, seg) && DescribesEach(At(t, seg), at + [seg], ds, ps)
    ensures DescribesEach(t, at, ds, Below(seg, ps))
  {
    hide ExprAt, Print;
    forall i | 0 <= i < |ps|
      ensures ExprAt(t, [seg] + ps[i]) == ExprAt(At(t, seg), ps[i]) && at + ([seg] + ps[i]) == at + [seg] + ps[i]
    {
      MemberExpr(t, seg, ps[i]);
    }
  }

  lemma JoinPlaces(t: Json, segs: iset<Segment>, more: iset<Segment>, ps: seq<Path>, qs: seq<Path>)
    requires PlacesBelow(t, segs, ps) && PlacesBelow(t, more, qs) && segs !! more
    ensures PlacesBelow(t, segs + more, ps + qs)
  {
    hide ExprAt;
    var all := ps + qs;
    forall i, j | 0 <= i < j < |all| ensures all[i] != all[j] {
      if i < |ps| <= j {
        assert all[i] in ps && all[j] in qs;
      }
    }
  }

  /** Adds the places below one more member. */
  lemma OneMoreMember(t: Json, at: Path, segs: iset<Segment>, seg: Segment,
                      ds: seq<Descriptor>, ps: seq<Path>, ds': seq<Descriptor>, ps': seq<Path>)
    requires Present(t, seg) && seg !in segs
    requires PlacesBelow(t, segs, ps) && DescribesEach(t, at, ds, ps)
    requires AllPlaces(At(t, seg), ps') && DescribesEach(At(t, seg), at + [seg], ds', ps')
    ensures PlacesBelow(t, segs + iset{seg}, ps + Below(seg, ps'))
    ensures DescribesEach(t, at, ds + ds', ps + Below(seg, ps'))
  {
    PlacesOfMember(t, seg, ps');
    JoinPlaces(t, segs, iset{seg}, ps, Below(seg, ps'));
    DescribesMember(t, at, seg, ds', ps');
    DescribesBoth(t, at, ds, ps, ds', Below(seg, ps'));
  }

  lemma DescribesBoth(t: Json, at: Path, ds: seq<Descriptor>, ps: seq<Path>, es: seq<Descriptor>, qs: seq<Path>)
    requires DescribesEach(t, at, ds, ps) && DescribesEach(t, at, es, qs)
    ensures DescribesEach(t, at, ds + es, ps + qs)
  {
    hide ExprAt, Print;
  }

  lemma AllMembersPlaces(t: Json, segs: iset<Segment>, ps: seq<Path>)
    requires !t.Str? && PlacesBelow(t, segs, ps) && forall seg | Present(t, seg) :: seg in segs
    ensures AllPlaces(t, ps)
  {
    forall p ensures ExprAt(t, p).Some? <==> p in ps {
      assert ExprAt(t, p).Some? ==> p != [] && Present(t, p[0]);
    }
  }

  /** Collects the expressions of a template; the members of an object come in any order. */
  method ParseSchemalessResource(resource: Json, path: string, ghost at: Path)
    returns (r: Result<seq<Descriptor>>, ghost places: seq<Path>)
    requires path == Print(at)
    ensures r.Err? <==> HasNested(resource)
    ensures r.Ok? ==> AllPlaces(resource, places) && DescribesEach(resource, at, r.value, places)
    decreases resource
  {
    hide ExprAt, AllPlaces, DescribesEach, PlacesBelow, Print, JoinPathAndFieldName, Itoa, Scanner.Compile;
    var found: seq<Descriptor> := [];
    places := [];
    ghost var segs: iset<Segment> := iset{};
    NothingBelow(resource, at);
    match resource {
      case Obj(fields) =>
        var keys := fields.Keys;
        while keys != {}
          invariant keys <= fields.Keys
          invariant forall seg :: seg in segs <==> seg.Field? && seg.name in fields && seg.name !in keys
          invariant forall k | k in fields && k !in keys :: !HasNested(fields[k])
          invariant PlacesBelow(resource, segs, places) && DescribesEach(resource, at, found, places)
          decreases keys
        {
          var field :| field in keys;
          keys := keys - {field};
          var fieldPath := JoinPathAndFieldName(path, field);
          GrowPath(at, Field(field));
          var more, below := ParseSchemalessResource(fields[field], fieldPath, at + [Field(field)]);
          if more.Err? {
            return Err, [];
          }
          OneMoreMember(resource, at, segs, Field(field), found, places, more.value, below);
          found := found + more.value;
          places := places + Below(Field(field), below);
          segs := segs + iset{Field(field)};
        }
        AllMembersPlaces(resource, segs, places);
      case Arr(items) =>
        for i := 0 to |items|
          invariant forall seg :: seg in segs <==> seg.Index? && seg.i < i
          invariant forall k | 0 <= k < i :: !HasNested(items[k])
          invariant PlacesBelow(resource, segs, places) && DescribesEach(resource, at, found, places)
        {
          var itemPath := path + "[" + Itoa(i) + "]";
          GrowPath(at, Index(i));
          var more, below := ParseSchemalessResource(items[i], itemPath, at + [Index(i)]);
          if more.Err? {
            return Err, [];
          }
          OneMoreMember(resource, at, segs, Index(i), found, places, more.value, below);
          found := found + more.value;
          places := places + Below(Index(i), below);
          segs := segs + iset{Index(i)};
        }
        AllMembersPlaces(resource, segs, places);
      case Str(field) =>
        var compiled := Scanner.CompileString(field);
        match compiled {
          case NestedExpression =>
            return Err, [];
          case Expression(expr) =>
            found, places := [Descriptor(path, expr)], [[]];
          case Plain =>
        }
        LeafPlaces(field, at);
      case _ =>
        AllMembersPlaces(resource, segs, places);
    }
    return Ok(found), places;
  }

  lemma GrowPath(at: Path, seg: Segment)
    ensures Print(at + [seg]) == Grow(Print(at), seg)
  {
    assert (at + [seg])[..|at|] == at;
  }

  lemma NothingBelow(t: Json, at: Path)
    ensures PlacesBelow(t, iset{}, []) && DescribesEach(t, at, [], [])
  {
  }

  lemma LeafPlaces(s: string, at: Path)
    ensures var e := LeafExpr(s);
            && AllPlaces(Str(s), if e.Some? then [[]] else [])
            && DescribesEach(Str(s), at, if e.Some? then [Descriptor(Print(at), e.value)] else [], if e.Some? then [[]] else [])
  {
    forall p ensures ExprAt(Str(s), p).Some? <==> LeafExpr(s).Some? && p == [] {
    }
    assert at + [] == at;
  }

  // ---- Substitution. ----

  /** The template with each expression replaced by its value. */
  function Substituted(t: Json, data: Data): Json {
    match t
    case Str(s) => if LeafExpr(s).Some? && LeafExpr(s).value in data then data[LeafExpr(s).value] else t
    case Arr(items) => Arr(seq(|items|, i requires 0 <= i < |items| => Substituted(items[i], data)))
    case Obj(fields) => Obj(map k | k in fields :: Substituted(fields[k], data))
    case _ => t
  }

  /** Values are there for all expressions, and the path notation carries their places. */
  ghost predicate Evaluable(t: Json, data: Data) {
    forall p | ExprAt(t, p).Some? :: ExprAt(t, p).value in data && AllCarriable(p)
  }

  /** `f` has the value of each expression of `t`, seen from `at`, and nothing else there. */
  ghost predicate ValuesOf(t: Json, at: Path, f: map<Path, Json>, data: Data) {
    forall p ::
      && (at + p in f <==> ExprAt(t, p).Some?)
      && (ExprAt(t, p).Some? ==> ExprAt(t, p).value in data && f[at + p] == data[ExprAt(t, p).value])
  }

  lemma ValuesOfMember(t: Json, at: Path, f: map<Path, Json>, data: Data, seg: Segment)
    requires ValuesOf(t, at, f, data) && Present(t, seg)
    ensures ValuesOf(At(t, seg), at + [seg], f, data)
  {
    forall p
      ensures at + [seg] + p in f <==> ExprAt(At(t, seg), p).Some?
      ensures ExprAt(At(t, seg), p).Some? ==>
                ExprAt(At(t, seg), p).value in data && f[at + [seg] + p] == data[ExprAt(At(t, seg), p).value]
    {
      MemberExpr(t, seg, p);
      assert at + [seg] + p == at + ([seg] + p);
    }
  }

  lemma ValueHere(t: Json, at: Path, f: map<Path, Json>, data: Data)
    requires ValuesOf(t, at, f, data)
    ensures at in f <==> t.Str? && LeafExpr(t.s).Some?
    ensures at in f ==> LeafExpr(t.s).value in data && f[at] == data[LeafExpr(t.s).value]
  {
    assert at + [] == at;
    assert at + [] in f <==> ExprAt(t, []).Some?;
  }

  lemma FieldsSubstituted(fields: map<string, Json>, at: Path, f: map<Path, Json>, data: Data)
    requires at !in f
    requires forall k | k in fields :: Graft(fields[k], at + [Field(k)], f) == Substituted(fields[k], data)
    ensures Graft(Obj(fields), at, f) == Substituted(Obj(fields), data)
  {
    var g := map k | k in fields :: Graft(fields[k], at + [Field(k)], f);
    var h := map k | k in fields :: Substituted(fields[k], data);
    assert g == h;
  }

  lemma ItemsSubstituted(items: seq<Json>, at: Path, f: map<Path, Json>, data: Data)
    requires at !in f
    requires forall i | 0 <= i < |items| :: Graft(items[i], at + [Index(i)], f) == Substituted(items[i], data)
    ensures Graft(Arr(items), at, f) == Substituted(Arr(items), data)
  {
    var g, h := Graft(Arr(items), at, f).items, Substituted(Arr(items), data).items;
    assert forall i | 0 <= i < |items| :: g[i] == h[i];
  }

  /** Grafting the values at the places of the expressions is substitution. */
  lemma {:induction false} GraftSubstitutes(t: Json, at: Path, f: map<Path, Json>, data: Data)
    requires ValuesOf(t, at, f, data)
    ensures Graft(t, at, f) == Substituted(t, data)
    decreases t
  {
    ValueHere(t, at, f, data);
    match t {
      case Obj(fields) =>
        hide ValuesOf, Graft, Substituted;
        forall k | k in fields ensures Graft(fields[k], at + [Field(k)], f) == Substituted(fields[k], data) {
          ValuesOfMember(t, at, f, data, Field(k));
          GraftSubstitutes(fields[k], at + [Field(k)], f, data);
        }
        FieldsSubstituted(fields, at, f, data);
      case Arr(items) =>
        hide ValuesOf, Graft, Substituted;
        forall i | 0 <= i < |items| ensures Graft(items[i], at + [Index(i)], f) == Substituted(items[i], data) {
          ValuesOfMember(t, at, f, data, Index(i));
          GraftSubstitutes(items[i], at + [Index(i)], f, data);
        }
        ItemsSubstituted(items, at, f, data);
      case _ =>
    }
  }

  /** A string has no parts, so no expression stands on the way to another. */
  lemma {:induction false} ExpressionsUnrelated(t: Json, p: Path, q: Path)
    requires ExprAt(t, p).Some? && ExprAt(t, q).Some? && p != q
    ensures Unrelated(p, q)
    decreases |p|
  {
    if p != [] && q != [] && p[0] == q[0] {
      assert p == [p[0]] + p[1..] && q == [q[0]] + q[1..];
      MemberExpr(t, p[0], p[1..]);
      MemberExpr(t, p[0], q[1..]);
      ExpressionsUnrelated(At(t, p[0]), p[1..], q[1..]);
    }
  }

  lemma DescribedPlace(t: Json, ds: seq<Descriptor>, ps: seq<Path>, data: Data, i: nat)
    requires t.Obj? && DescribesEach(t, [], ds, ps) && Evaluable(t, data) && i < |ds|
    ensures Parsed(ds[i].path) == Ok(ps[i]) && WritesAt(t, ds[i], data, ps[i])
    ensures ds[i].expr == ExprAt(t, ps[i]).value
  {
    assert [] + ps[i] == ps[i];
    PrintParsesIff(ps[i]);
    assert ps[i] != [];
  }

  lemma DescribedApart(t: Json, ds: seq<Descriptor>, ps: seq<Path>, data: Data)
    requires t.Obj? && DescribesEach(t, [], ds, ps) && AllPlaces(t, ps) && Evaluable(t, data)
    ensures PairwiseApart(ds)
  {
    hide ExprAt;
    forall i, j | 0 <= i < j < |ds| ensures Apart(ds[i], ds[j]) {
      DescribedPlace(t, ds, ps, data, i);
      DescribedPlace(t, ds, ps, data, j);
      ExpressionsUnrelated(t, ps[i], ps[j]);
    }
  }

  lemma DescribedValues(t: Json, ds: seq<Descriptor>, ps: seq<Path>, data: Data)
    requires t.Obj? && DescribesEach(t, [], ds, ps) && AllPlaces(t, ps) && Evaluable(t, data)
    ensures ValuesOf(t, [], Effects(t, ds, data), data)
  {
    hide ExprAt, Effects;
    var f := Effects(t, ds, data);
    forall p
      ensures [] + p in f <==> ExprAt(t, p).Some?
      ensures ExprAt(t, p).Some? ==> ExprAt(t, p).value in data && f[[] + p] == data[ExprAt(t, p).value]
    {
      assert [] + p == p;
      if p in f {
        var i := EffectsFrom(t, ds, data, p);
        DescribedPlace(t, ds, ps, data, i);
      }
      if ExprAt(t, p).Some? {
        var i :| 0 <= i < |ps| && ps[i] == p;
        DescribedPlace(t, ds, ps, data, i);
        EffectsOf(t, ds, data, i, p);
      }
    }
  }

  /**
    Collecting the expressions of a template, printing and parsing their paths, writing the values one by one
    in any order and cleaning up is substitution followed by removal of what is omitted.
   */
  lemma TemplateSubstitution(t: Json, ds: seq<Descriptor>, data: Data)
    requires t.Obj? && Describes(t, [], ds) && Evaluable(t, data)
    ensures Clean(AppliedAll(t, ds, data)) == Clean(Substituted(t, data))
    ensures forall i | 0 <= i < |ds| :: Outcome(AppliedAll(t, ds[..i], data), ds[i], data).Resolved?
  {
    hide ExprAt, AllPlaces, DescribesEach, Evaluable, AppliedAll;
    var ps :| AllPlaces(t, ps) && DescribesEach(t, [], ds, ps);
    DescribedApart(t, ds, ps, data);
    DescribedValues(t, ds, ps, data);
    AppliedAllGrafts(t, ds, data);
    GraftSubstitutes(t, [], Effects(t, ds, data), data);
    forall i | 0 <= i < |ds| ensures Outcome(AppliedAll(t, ds[..i], data), ds[i], data).Resolved? {
      DescribedPlace(t, ds, ps, data, i);
      OutcomeIndependent(t, ds, data, i);
    }
  }
}
