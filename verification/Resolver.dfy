/** Filling evaluated expressions into a template: `kro/runtime/resolver/resolver.go`. */
module Resolver {
  import opened Text
  import opened Trees
  import opened FieldPath
  import opened Grafting

  /** Where an expression stands in a template, as a path string, and the expression. */
  datatype Descriptor = Descriptor(path: string, expr: string)

  datatype FieldResult = Resolved(path: string, replaced: Json) | NoPath(path: string) | NoData(path: string)

  type Data = map<string, Json>

  predicate Reachable(t: Json, path: string) {
    match Parsed(path) case Ok(p) => Get(t, p).Some? case Err => false
  }

  function Outcome(t: Json, d: Descriptor, data: Data): FieldResult {
    if !Reachable(t, d.path) then NoPath(d.path)
    else if d.expr !in data then NoData(d.path)
    else Resolved(d.path, data[d.expr])
  }

  function Applied(t: Json, d: Descriptor, data: Data): Json {
    if Outcome(t, d, data).Resolved? then Put(t, Parsed(d.path).value, data[d.expr]).tree else t
  }

  function AppliedAll(t: Json, ds: seq<Descriptor>, data: Data): Json {
    if ds == [] then t else Applied(AppliedAll(t, ds[..|ds| - 1], data), ds[|ds| - 1], data)
  }

  lemma NothingApplied(t: Json, data: Data)
    ensures AppliedAll(t, [], data) == t
  {
  }

  lemma AppliedOneMore(t: Json, ds: seq<Descriptor>, data: Data, i: nat)
    requires i < |ds|
    ensures AppliedAll(t, ds[..i + 1], data) == Applied(AppliedAll(t, ds[..i], data), ds[i], data)
  {
    assert ds[..i + 1][..i] == ds[..i];
  }

  // ---- Removing omitted members. ----

  /** `t` without the object members and array elements that are omitted, at any depth. */
  function Clean(t: Json): Json {
    match t
    case Obj(fields) => Obj(map k | k in fields && fields[k] != Omit :: Clean(fields[k]))
    case Arr(items) => Arr(CleanItems(items))
    case _ => t
  }

  function CleanItems(items: seq<Json>): seq<Json> {
    if items == [] then []
    else if items[0] == Omit then CleanItems(items[1..])
    else [Clean(items[0])] + CleanItems(items[1..])
  }

  predicate OmitFree(t: Json) {
    match t
    case Omit => false
    case Obj(fields) => forall k | k in fields :: OmitFree(fields[k])
    case Arr(items) => forall i | 0 <= i < |items| :: OmitFree(items[i])
    case _ => true
  }

  lemma {:induction false} CleanOmitFree(t: Json)
    requires t != Omit
    ensures OmitFree(Clean(t))
    decreases t, 1
  {
    match t
    case Obj(fields) =>
      forall k | k in fields && fields[k] != Omit ensures OmitFree(Clean(fields[k])) {
        CleanOmitFree(fields[k]);
      }
    case Arr(items) => CleanItemsOmitFree(t, items);
    case _ =>
  }

  lemma {:induction false} CleanItemsOmitFree(t: Json, items: seq<Json>)
    requires forall x | x in items :: x < t
    ensures forall i | 0 <= i < |CleanItems(items)| :: OmitFree(CleanItems(items)[i])
    decreases t, 0, |items|
  {
    if items != [] {
      assert items[0] in items && forall x | x in items[1..] :: x in items;
      CleanItemsOmitFree(t, items[1..]);
      if items[0] != Omit {
        CleanOmitFree(items[0]);
      }
    }
  }

  /** Cleaning deletes nothing but omitted members. */
  lemma {:induction false} CleanKeepsOmitFree(t: Json)
    requires OmitFree(t)
    ensures Clean(t) == t
    decreases t, 1
  {
    match t
    case Obj(fields) =>
      forall k | k in fields ensures fields[k] != Omit && Clean(fields[k]) == fields[k] {
        CleanKeepsOmitFree(fields[k]);
      }
    case Arr(items) => CleanItemsKeepsOmitFree(t, items);
    case _ =>
  }

  lemma {:induction false} CleanItemsKeepsOmitFree(t: Json, items: seq<Json>)
    requires forall x | x in items :: x < t && OmitFree(x)
    ensures CleanItems(items) == items
    decreases t, 0, |items|
  {
    if items != [] {
      assert items[0] in items;
      CleanKeepsOmitFree(items[0]);
      CleanItemsKeepsOmitFree(t, items[1..]);
    }
  }

  lemma {:induction false} CleanItemsAppend(a: seq<Json>, b: seq<Json>)
    ensures CleanItems(a + b) == CleanItems(a) + CleanItems(b)
  {
    if a == [] {
      assert a + b == b;
    } else {
      assert (a + b)[1..] == a[1..] + b;
      CleanItemsAppend(a[1..], b);
    }
  }

  // What stays, and where it moves to.

  /** Nothing is omitted from the root to the end of the path. */
  predicate KeptAt(t: Json, p: Path) {
    t != Omit && (p == [] || (Present(t, p[0]) && KeptAt(At(t, p[0]), p[1..])))
  }

  /** Where cleaning moves what stands at `p`: elements move up over the omitted ones before them. */
  function CleanPath(t: Json, p: Path): Path
    requires KeptAt(t, p)
  {
    if p == [] then []
    else [if p[0].Index? then Index(|CleanItems(t.items[..p[0].i])|) else p[0]] + CleanPath(At(t, p[0]), p[1..])
  }

  lemma CleanItemsAt(items: seq<Json>, i: nat)
    requires i < |items| && items[i] != Omit
    ensures var j := |CleanItems(items[..i])|;
            && j < |CleanItems(items)| && CleanItems(items)[j] == Clean(items[i])
            && |CleanItems(items[..i + 1])| == j + 1 <= |CleanItems(items)|
  {
    assert items == items[..i] + [items[i]] + items[i + 1..] && items[..i + 1] == items[..i] + [items[i]];
    CleanItemsAppend(items[..i + 1], items[i + 1..]);
    CleanItemsAppend(items[..i], [items[i]]);
  }

  lemma CleanItemsGrow(items: seq<Json>, i: nat, j: nat)
    requires i <= j <= |items|
    ensures |CleanItems(items[..i])| <= |CleanItems(items[..j])|
  {
    assert items[..j] == items[..i] + items[i..j];
    CleanItemsAppend(items[..i], items[i..j]);
  }

  lemma {:induction false} CleanItemFrom(items: seq<Json>, j: nat) returns (i: nat)
    requires j < |CleanItems(items)|
    ensures i < |items| && items[i] != Omit && |CleanItems(items[..i])| == j
  {
    var n := |items| - 1;
    assert items == items[..n] + [items[n]];
    CleanItemsAppend(items[..n], [items[n]]);
    if j < |CleanItems(items[..n])| {
      i := CleanItemFrom(items[..n], j);
      assert items[..n][..i] == items[..i];
    } else {
      i := n;
    }
  }

  /** Whatever is not omitted stays, cleaned itself. */
  lemma {:induction false} CleanKeeps(t: Json, p: Path)
    requires KeptAt(t, p)
    ensures Get(t, p).Some? && Get(Clean(t), CleanPath(t, p)) == Some(Clean(Get(t, p).value))
    decreases |p|
  {
    if p != [] {
      if p[0].Index? {
        assert KeptAt(t.items[p[0].i], p[1..]);
        CleanItemsAt(t.items, p[0].i);
      }
      CleanKeeps(At(t, p[0]), p[1..]);
      assert CleanPath(t, p)[1..] == CleanPath(At(t, p[0]), p[1..]);
    }
  }

  /** Nothing else is there afterwards. */
  lemma {:induction false} CleanAddsNothing(t: Json, q: Path) returns (p: Path)
    requires t != Omit && Get(Clean(t), q).Some?
    ensures KeptAt(t, p) && CleanPath(t, p) == q
    decreases |q|
  {
    p := [];
    if q != [] {
      var seg := q[0];
      if seg.Index? {
        var i := CleanItemFrom(t.items, seg.i);
        CleanItemsAt(t.items, i);
        seg := Index(i);
      }
      var rest := CleanAddsNothing(At(t, seg), q[1..]);
      p := [seg] + rest;
      assert p[1..] == rest;
    }
  }

  /** Different places stay different. */
  lemma {:induction false} CleanPathInjective(t: Json, p: Path, q: Path)
    requires KeptAt(t, p) && KeptAt(t, q) && CleanPath(t, p) == CleanPath(t, q)
    ensures p == q
    decreases |p|
  {
    if p != [] && q != [] {
      var a, b := CleanPath(t, p), CleanPath(t, q);
      assert a[0] == b[0] && a[1..] == CleanPath(At(t, p[0]), p[1..]) && b[1..] == CleanPath(At(t, q[0]), q[1..]);
      if p[0].Index? && p[0].i < q[0].i {
        CleanItemsAt(t.items, p[0].i);
        CleanItemsGrow(t.items, p[0].i + 1, q[0].i);
      } else if p[0].Index? && q[0].i < p[0].i {
        CleanItemsAt(t.items, q[0].i);
        CleanItemsGrow(t.items, q[0].i + 1, p[0].i);
      }
      CleanPathInjective(At(t, p[0]), p[1..], q[1..]);
    }
  }

  /** The clean-up pass; members of an object are visited in any order. */
  method CleanOmitSentinels(v: Json) returns (r: Json)
    ensures r == Clean(v)
    decreases v
  {
    match v {
      case Obj(fields) =>
        var result := fields;
        var keys := fields.Keys;
        while keys != {}
          invariant keys <= fields.Keys && result.Keys <= fields.Keys && keys <= result.Keys
          invariant forall k | k in keys :: result[k] == fields[k]
          invariant forall k | k in fields && k !in keys :: k in result <==> fields[k] != Omit
          invariant forall k | k in result && k !in keys :: result[k] == Clean(fields[k])
          decreases keys
        {
          var k :| k in keys;
          keys := keys - {k};
          var child := result[k];
          if child == Omit {
            result := result - {k};
          } else {
            var cleaned := CleanOmitSentinels(child);
            result := result[k := cleaned];
          }
        }
        return Obj(result);
      case Arr(items) =>
        var filtered: seq<Json> := [];
        for i := 0 to |items|
          invariant filtered == CleanItems(items[..i])
        {
          assert items[..i + 1] == items[..i] + [items[i]];
          CleanItemsAppend(items[..i], [items[i]]);
          if items[i] != Omit {
            var cleaned := CleanOmitSentinels(items[i]);
            filtered := filtered + [cleaned];
          }
        }
        assert items[..|items|] == items;
        return Arr(filtered);
      case _ =>
        return v;
    }
  }

  // ---- The resolver. ----

  /** Reads the value at the end of the path. */
  method Traverse(root: Json, segments: Path) returns (r: Option<Json>)
    ensures r == Get(root, segments)
  {
    var current := root;
    for i := 0 to |segments|
      invariant Get(root, segments) == Get(current, segments[i..])
    {
      assert segments[i..][1..] == segments[i + 1..];
      match segments[i] {
        case Index(n) =>
          if !current.Arr? || n >= |current.items| {
            return None;
          }
          current := current.items[n];
        case Field(name) =>
          if !current.Obj? || name !in current.fields {
            return None;
          }
          current := current.fields[name];
      }
    }
    return Some(current);
  }

  /** What is there can be replaced. */
  lemma PutReachable(t: Json, p: Path, v: Json)
    requires Get(t, p).Some? && p != []
    ensures Put(t, p, v).ok && Get(Put(t, p, v).tree, p) == Some(v)
  {
    GraftNothing(t, []);
    GraftPut(t, [], map[], p, v);
    PutGet(t, p, v);
  }

  class TemplateResolver {
    var resource: Json
    const data: Data

    constructor (resource: Json, data: Data)
      ensures this.resource == resource && this.data == data
    {
      this.resource, this.data := resource, data;
    }

    /** Creates what is missing on the way and writes the value. */
    method SetValueAtPath(path: string, value: Json) returns (ok: bool)
      modifies this
      ensures match Parsed(path)
        case Err => !ok && resource == old(resource)
        case Ok(p) => Written(resource, ok) == Put(old(resource), p, value)
    {
      var parser := new Parser(path);
      var segments := parser.Parse();
      if segments.Err? {
        return false;
      }
      var w := Put(resource, segments.value, value);
      resource := w.tree;
      return w.ok;
    }

    method ResolveField(field: Descriptor) returns (r: FieldResult)
      modifies this
      ensures r == Outcome(old(resource), field, data)
      ensures r.NoPath? <==> Parsed(field.path).Err? || Get(old(resource), Parsed(field.path).value).None?
      ensures r.NoData? <==> !r.NoPath? && field.expr !in data
      ensures r.Resolved? ==> r.replaced == data[field.expr]
      ensures resource == Applied(old(resource), field, data)
      ensures !r.Resolved? ==> resource == old(resource)
      ensures r.Resolved? && Parsed(field.path).value != [] ==> Get(resource, Parsed(field.path).value) == Some(data[field.expr])
    {
      var parser := new Parser(field.path);
      var segments := parser.Parse();
      if segments.Err? {
        return NoPath(field.path);
      }
      var found := Traverse(resource, segments.value);
      if found.None? {
        return NoPath(field.path);
      }
      if field.expr !in data {
        return NoData(field.path);
      }
      if segments.value != [] {
        PutReachable(resource, segments.value, data[field.expr]);
      }
      var _ := SetValueAtPath(field.path, data[field.expr]);
      return Resolved(field.path, data[field.expr]);
    }

    /** Writes all values first; omitted members are removed only afterwards, so that indices stay right. */
    method Resolve(fields: seq<Descriptor>) returns (results: seq<FieldResult>)
      modifies this
      ensures |results| == |fields|
      ensures forall i | 0 <= i < |fields| ::
                results[i] == Outcome(AppliedAll(old(resource), fields[..i], data), fields[i], data)
      ensures resource == Clean(AppliedAll(old(resource), fields, data))
    {
      hide AppliedAll, Applied, Outcome, Clean;
      results := [];
      NothingApplied(resource, data);
      assert fields[..0] == [];
      for i := 0 to |fields|
        invariant |results| == i && resource == AppliedAll(old(resource), fields[..i], data)
        invariant forall j | 0 <= j < i ::
          results[j] == Outcome(AppliedAll(old(resource), fields[..j], data), fields[j], data)
      {
        AppliedOneMore(old(resource), fields, data, i);
        var result := ResolveField(fields[i]);
        results := results + [result];
      }
      assert fields[..|fields|] == fields;
      resource := CleanOmitSentinels(resource);
    }
  }

  // ---- What a series of writes amounts to. ----

  predicate Apart(d: Descriptor, e: Descriptor) {
    Parsed(d.path).Ok? && Parsed(e.path).Ok? ==> Unrelated(Parsed(d.path).value, Parsed(e.path).value)
  }

  /** No path is a prefix of another. */
  predicate PairwiseApart(ds: seq<Descriptor>) {
    forall i, j | 0 <= i < j < |ds| :: Apart(ds[i], ds[j])
  }

  /** Whether `d` changes the tree; the empty path stands for the whole, which is never replaced. */
  predicate Effective(t: Json, d: Descriptor, data: Data) {
    Outcome(t, d, data).Resolved? && Parsed(d.path).value != []
  }

  /** The writes of `ds` that find their place in `t`, by path. */
  function Effects(t: Json, ds: seq<Descriptor>, data: Data): map<Path, Json> {
    if ds == [] then map[]
    else
      var prior, d := Effects(t, ds[..|ds| - 1], data), ds[|ds| - 1];
      if Effective(t, d, data) then prior[Parsed(d.path).value := data[d.expr]] else prior
  }

  /** `d` writes at `p`. */
  predicate WritesAt(t: Json, d: Descriptor, data: Data, p: Path) {
    Effective(t, d, data) && Parsed(d.path) == Ok(p)
  }

  lemma {:induction false} EffectsFrom(t: Json, ds: seq<Descriptor>, data: Data, p: Path) returns (i: nat)
    requires p in Effects(t, ds, data)
    ensures i < |ds| && WritesAt(t, ds[i], data, p) && Effects(t, ds, data)[p] == data[ds[i].expr]
    decreases |ds|
  {
    i := |ds| - 1;
    if !WritesAt(t, ds[i], data, p) {
      i := EffectsFrom(t, ds[..i], data, p);
    }
  }

  lemma {:induction false} EffectsOf(t: Json, ds: seq<Descriptor>, data: Data, i: nat, p: Path)
    requires i < |ds| && WritesAt(t, ds[i], data, p)
    ensures p in Effects(t, ds, data)
    decreases |ds|
  {
    if i < |ds| - 1 {
      assert ds[..|ds| - 1][i] == ds[i];
      EffectsOf(t, ds[..|ds| - 1], data, i, p);
    }
  }

  lemma EffectsApart(t: Json, ds: seq<Descriptor>, data: Data, p: Path)
    requires forall d | d in ds && Parsed(d.path).Ok? :: Unrelated(Parsed(d.path).value, p)
    ensures AllUnrelated(Effects(t, ds, data), [] + p)
  {
    forall k | k in Effects(t, ds, data) ensures Unrelated(k, p) {
      var i := EffectsFrom(t, ds, data, k);
    }
    assert [] + p == p;
  }

  /** Writes that are apart graft their values: the order of the writes does not matter. */
  lemma {:induction false} AppliedAllGrafts(t: Json, ds: seq<Descriptor>, data: Data)
    requires PairwiseApart(ds)
    ensures AppliedAll(t, ds, data) == Graft(t, [], Effects(t, ds, data))
    decreases |ds|
  {
    hide Graft;
    if ds == [] {
      GraftNothing(t, []);
    } else {
      var n := |ds| - 1;
      AppliedAllGrafts(t, ds[..n], data);
      LastOutcome(t, ds, data);
      if Outcome(t, ds[n], data).Resolved? {
        var p := Parsed(ds[n].path).value;
        LastApart(ds);
        EffectsApart(t, ds[..n], data, p);
        if p != [] {
          GraftPut(t, [], Effects(t, ds[..n], data), p, data[ds[n].expr]);
          assert [] + p == p;
        }
      }
    }
  }

  lemma LastApart(ds: seq<Descriptor>)
    requires PairwiseApart(ds) && ds != [] && Parsed(ds[|ds| - 1].path).Ok?
    ensures forall d | d in ds[..|ds| - 1] && Parsed(d.path).Ok? ::
              Unrelated(Parsed(d.path).value, Parsed(ds[|ds| - 1].path).value)
  {
    var last := ds[|ds| - 1];
    forall d | d in ds[..|ds| - 1] ensures Apart(d, last) {
      var i :| 0 <= i < |ds| - 1 && ds[i] == d;
    }
  }

  /** The earlier writes do not decide whether the last one finds its place. */
  lemma LastOutcome(t: Json, ds: seq<Descriptor>, data: Data)
    requires PairwiseApart(ds) && ds != []
    requires AppliedAll(t, ds[..|ds| - 1], data) == Graft(t, [], Effects(t, ds[..|ds| - 1], data))
    ensures Outcome(AppliedAll(t, ds[..|ds| - 1], data), ds[|ds| - 1], data) == Outcome(t, ds[|ds| - 1], data)
  {
    var d := ds[|ds| - 1];
    if Parsed(d.path).Ok? {
      LastApart(ds);
      EffectsApart(t, ds[..|ds| - 1], data, Parsed(d.path).value);
      GraftKeepsPath(t, [], Effects(t, ds[..|ds| - 1], data), Parsed(d.path).value);
    }
  }

  lemma FirstOccurrence<T>(s: seq<T>, x: T) returns (i: nat)
    requires x in s
    ensures i < |s| && s[i] == x && x !in s[..i]
  {
    i := 0;
    while s[i] != x
      invariant i < |s| && x !in s[..i]
      invariant x in s[i..]
      decreases |s| - i
    {
      i := i + 1;
    }
  }

  /** A value at two places of one sequence is at two places of any permutation. */
  lemma TwiceInPermutation<T>(s: seq<T>, r: seq<T>, i: nat, j: nat) returns (a: nat, b: nat)
    requires multiset(s) == multiset(r) && i < j < |s| && s[i] == s[j]
    ensures a < b < |r| && r[a] == r[b] == s[i]
  {
    var x := s[i];
    assert s == s[..j] + [x] + s[j + 1..];
    assert x in s[..j];
    assert multiset(r)[x] >= 2;
    a := FirstOccurrence(r, x);
    assert r == r[..a] + [x] + r[a + 1..];
    assert x in r[a + 1..];
    b :| a < b < |r| && r[b] == x;
  }

  lemma ApartPermutes(ds: seq<Descriptor>, es: seq<Descriptor>)
    requires multiset(ds) == multiset(es) && PairwiseApart(ds)
    ensures PairwiseApart(es)
  {
    forall i, j | 0 <= i < j < |es| ensures Apart(es[i], es[j]) {
      if es[i] == es[j] {
        var a, b := TwiceInPermutation(es, ds, i, j);
        assert Apart(ds[a], ds[b]);
      } else {
        assert es[i] in multiset(ds) && es[j] in multiset(ds);
        var a :| 0 <= a < |ds| && ds[a] == es[i];
        var b :| 0 <= b < |ds| && ds[b] == es[j];
        assert a < b ==> Apart(ds[a], ds[b]);
        assert b < a ==> Apart(ds[b], ds[a]);
      }
    }
  }

  lemma EffectsWithin(t: Json, ds: seq<Descriptor>, es: seq<Descriptor>, data: Data)
    requires multiset(ds) == multiset(es)
    requires PairwiseApart(es)
    ensures forall p | p in Effects(t, ds, data) ::
              p in Effects(t, es, data) && Effects(t, es, data)[p] == Effects(t, ds, data)[p]
  {
    forall p | p in Effects(t, ds, data)
      ensures p in Effects(t, es, data) && Effects(t, es, data)[p] == Effects(t, ds, data)[p]
    {
      var i := EffectsFrom(t, ds, data, p);
      assert ds[i] in multiset(es);
      var j :| 0 <= j < |es| && es[j] == ds[i];
      EffectsOf(t, es, data, j, p);
      var k := EffectsFrom(t, es, data, p);
      assert j < k ==> Apart(es[j], es[k]);
      assert k < j ==> Apart(es[k], es[j]);
    }
  }

  /** Every order of the same descriptors leaves the same resource. */
  lemma OrderOfWritesIrrelevant(t: Json, ds: seq<Descriptor>, es: seq<Descriptor>, data: Data)
    requires PairwiseApart(ds) && multiset(ds) == multiset(es)
    ensures Clean(AppliedAll(t, ds, data)) == Clean(AppliedAll(t, es, data))
  {
    hide Graft;
    ApartPermutes(ds, es);
    AppliedAllGrafts(t, ds, data);
    AppliedAllGrafts(t, es, data);
    EffectsWithin(t, ds, es, data);
    EffectsWithin(t, es, ds, data);
    assert Effects(t, ds, data) == Effects(t, es, data);
  }

  /** And what is reported for a field does not depend on the fields before it. */
  lemma OutcomeIndependent(t: Json, ds: seq<Descriptor>, data: Data, i: nat)
    requires PairwiseApart(ds) && i < |ds|
    ensures Outcome(AppliedAll(t, ds[..i], data), ds[i], data) == Outcome(t, ds[i], data)
  {
    var some := ds[..i + 1];
    assert PairwiseApart(some);
    assert some[..|some| - 1] == ds[..i];
    AppliedAllGrafts(t, ds[..i], data);
    LastOutcome(t, some, data);
  }
}
