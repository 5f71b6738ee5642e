/** The resolver at work on mutable maps and slices: `Resolver` in `kro/runtime/resolver/resolver.go`. */
module InPlaceResolver {
  import opened Text
  import opened Trees
  import opened FieldPath
  import opened InPlace
  import R = Resolver

  datatype FieldStatus = Filled | NoPath | NoData

  function StatusOf(r: R.FieldResult): FieldStatus {
    match r case Resolved(_, _) => Filled case NoPath(_) => NoPath case NoData(_) => NoData
  }

  /** Reads along the path without changing anything. */
  method Traverse(resource: Value, segments: Path, ghost s: Shape) returns (found: Option<Value>)
    requires Val(s) == resource && Tidy(s) && Held(s)
    ensures found.None? <==> Get(Tree(s), segments) == None
    ensures found.Some? ==> exists at :: Stands(found.value, at) && Get(Tree(s), segments) == Some(Tree(at))
  {
    hide Tree, Tidy, Cells, Held;
    var current := resource;
    ghost var cur := s;
    for i := 0 to |segments|
      invariant Val(cur) == current && Tidy(cur) && Held(cur)
      invariant Get(Tree(s), segments) == Get(Tree(cur), segments[i..])
    {
      assert segments[i..][1..] == segments[i + 1..];
      TreeKnown(cur, segments[i]);
      EntryKnown(cur, segments[i]);
      if !HasEntry(current, segments[i]) {
        return None;
      }
      current, cur := EntryOf(current, segments[i]), cur.kids[segments[i]];
    }
    assert Stands(current, cur);
    return Some(current);
  }

  /** The heap below `v` is as `at` says. */
  ghost predicate Stands(v: Value, at: Shape)
    reads Cells(at)
  {
    Val(at) == v && Tidy(at) && Held(at)
  }

  /** What a step finds in the heap is what it finds in the tree. */
  lemma EntryKnown(s: Shape, seg: Segment)
    requires Tidy(s) && Held(s)
    ensures HasEntry(Val(s), seg) <==> Present(Tree(s), seg)
    ensures HasEntry(Val(s), seg) ==>
              && s.Container? && seg in s.kids && EntryOf(Val(s), seg) == Val(s.kids[seg])
              && Tidy(s.kids[seg]) && Held(s.kids[seg])
  {
    hide Tree, Cells;
    TreeKnown(s, seg);
  }

  type Shapes = map<string, Shape>

  ghost function DataOf(values: Shapes): R.Data {
    map e | e in values :: Tree(values[e])
  }

  /** The values are in the heap, apart from each other and, as long as they are not used, from the tree. */
  ghost predicate Ready(tree: Shape, data: map<string, Value>, values: Shapes, used: set<string>)
    reads Cells(tree), AllValueCells(values)
  {
    && Tidy(tree) && Held(tree) && values.Keys == data.Keys
    && (forall e | e in values :: Tidy(values[e]) && Val(values[e]) == data[e])
    && (forall e | e in values && e !in used :: Held(values[e]) && Cells(values[e]) !! Cells(tree))
    && forall e, f | e in values && f in values && e != f :: Cells(values[e]) !! Cells(values[f])
  }

  ghost function AllValueCells(values: Shapes): set<object> {
    set e, o | e in values && o in Cells(values[e]) :: o
  }

  /** A value that is written twice has no maps and slices that two places could share. */
  ghost predicate Usable(values: Shapes, used: set<string>, e: string) {
    e in values && e in used ==> Cells(values[e]) == {}
  }

  lemma UsableHeld(tree: Shape, data: map<string, Value>, values: Shapes, used: set<string>, e: string)
    requires Ready(tree, data, values, used) && Usable(values, used, e) && e in values
    ensures Held(values[e]) && Cells(tree) !! Cells(values[e]) && Tidy(values[e]) && Val(values[e]) == data[e]
  {
    hide Tree, Cells;
    ContainerCells(values[e]);
  }

  lemma ContainerCells(s: Shape)
    requires Tidy(s)
    ensures s.Container? ==> Cells(s) != {}
  {
    if s.Container? {
      KidsWithin(s);
    }
  }

  lemma ValuesAllocated(values: Shapes)
    ensures forall e | e in values :: forall o | o in Cells(values[e]) :: allocated(o)
  {
    forall e | e in values ensures forall o | o in Cells(values[e]) :: allocated(o) {
      CellsAllocated(values[e]);
    }
  }

  /** One field: where its path leads, and its value there if it has one. */
  method ResolveField(resource: Value, field: R.Descriptor, data: map<string, Value>, ghost tree: Shape, ghost values: Shapes,
                      ghost used: set<string>)
    returns (status: FieldStatus, ghost after: Shape, ghost more: set<object>)
    requires resource.MapRef? && Val(tree) == resource && Ready(tree, data, values, used) && Usable(values, used, field.expr)
    modifies Cells(tree)
    ensures status == StatusOf(R.Outcome(Tree(tree), field, DataOf(values)))
    ensures Tree(after) == R.Applied(Tree(tree), field, DataOf(values))
    ensures Val(after) == resource && Ready(after, data, values, used + {field.expr})
    ensures fresh(more) && Cells(after) <= Cells(tree) + AllValueCells(values) + more
  {
    hide Tree, Tidy, Cells, Held;
    more := {};
    CellsAllocated(tree);
    ValuesAllocated(values);
    var parser := new Parser(field.path);
    var segments := parser.Parse();
    assert Ready(tree, data, values, used);
    if segments.Err? {
      return NoPath, tree, {};
    }
    var found := Traverse(resource, segments.value, tree);
    if found.None? {
      return NoPath, tree, {};
    }
    if field.expr !in data {
      return NoData, tree, {};
    }
    UsableHeld(tree, data, values, used, field.expr);
    ValuesAllocated(values);
    var ok;
    ok, after, more := SetValueAtPath(resource, segments.value, data[field.expr], tree, values[field.expr]);
    return Filled, after, more;
  }

  function ExprsOf(fields: seq<R.Descriptor>): set<string> {
    set i | 0 <= i < |fields| :: fields[i].expr
  }

  /** Only scalars are written to more than one place. */
  ghost predicate NothingShared(fields: seq<R.Descriptor>, values: Shapes) {
    forall i, j | 0 <= i < j < |fields| && fields[i].expr == fields[j].expr && fields[i].expr in values ::
      Cells(values[fields[i].expr]) == {}
  }

  lemma StillUsable(fields: seq<R.Descriptor>, values: Shapes, i: nat)
    requires NothingShared(fields, values) && i < |fields|
    ensures Usable(values, ExprsOf(fields[..i]), fields[i].expr)
    ensures ExprsOf(fields[..i + 1]) == ExprsOf(fields[..i]) + {fields[i].expr}
  {
    hide Cells;
    forall e ensures e in ExprsOf(fields[..i + 1]) <==> e in ExprsOf(fields[..i]) + {fields[i].expr} {
      if e in ExprsOf(fields[..i]) {
        var j :| 0 <= j < i && fields[..i][j].expr == e;
        assert fields[..i + 1][j].expr == e;
      }
      assert fields[..i + 1][i] == fields[i];
    }
  }

  /**
    The fields one after the other and then the clean-up, all in place: the tree in the heap becomes what the
    resolver on values makes of it.
   */
  method Resolve(resource: Value, fields: seq<R.Descriptor>, data: map<string, Value>, ghost tree: Shape, ghost values: Shapes)
    returns (results: seq<FieldStatus>, ghost after: Shape)
    requires resource.MapRef? && Val(tree) == resource && Ready(tree, data, values, {}) && NothingShared(fields, values)
    modifies Cells(tree), AllValueCells(values)
    ensures |results| == |fields|
    ensures forall i | 0 <= i < |fields| ::
              results[i] == StatusOf(R.Outcome(R.AppliedAll(Tree(tree), fields[..i], DataOf(values)), fields[i], DataOf(values)))
    ensures Tidy(after) && Held(after) && Val(after) == resource
    ensures Tree(after) == R.Clean(R.AppliedAll(Tree(tree), fields, DataOf(values)))
  {
    hide Tree, Tidy, Cells, Held, Ready, AllValueCells, NothingShared, R.AppliedAll, R.Applied, R.Outcome, R.Clean;
    ghost var d, t0, more: set<object> := DataOf(values), Tree(tree), {};
    results, after := [], tree;
    assert fields[..0] == [] && ExprsOf([]) == {};
    R.NothingApplied(t0, d);
    for i := 0 to |fields|
      invariant |results| == i && Val(after) == resource && Ready(after, data, values, ExprsOf(fields[..i]))
      invariant Tree(after) == R.AppliedAll(t0, fields[..i], d)
      invariant forall j | 0 <= j < i :: results[j] == StatusOf(R.Outcome(R.AppliedAll(t0, fields[..j], d), fields[j], d))
      invariant fresh(more) && Cells(after) <= Cells(tree) + AllValueCells(values) + more
    {
      StillUsable(fields, values, i);
      R.AppliedOneMore(t0, fields, d, i);
      var status;
      ghost var found;
      status, after, found := ResolveField(resource, fields[i], data, after, values, ExprsOf(fields[..i]));
      more := more + found;
      results := results + [status];
    }
    assert fields[..|fields|] == fields;
    ReadyTree(after, data, values, ExprsOf(fields));
    var root;
    root, after := CleanOmitSentinels(resource, after);
  }

  lemma ReadyTree(tree: Shape, data: map<string, Value>, values: Shapes, used: set<string>)
    requires Ready(tree, data, values, used)
    ensures Tidy(tree) && Held(tree)
  {
  }
}
