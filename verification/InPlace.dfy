/** Unstructured objects as nested mutable maps and slices, written in place: `kro/runtime/resolver/resolver.go`. */
module InPlace {
  import opened Trees
  import R = Resolver

  /** A Go value: nil, a scalar, or a reference to a map or to the array behind a slice. */
  datatype Value = Nil | Scalar(v: Json) | MapRef(m: GoMap) | SliceRef(a: array<Value>)

  class GoMap {
    var entries: map<string, Value>

    constructor ()
      ensures entries == map[]
    {
      entries := map[];
    }
  }

  ghost function Cell(at: Value): object
    requires at.MapRef? || at.SliceRef?
  {
    match at case MapRef(m) => m case SliceRef(a) => a
  }

  predicate HasEntry(at: Value, seg: Segment)
    reads if at.MapRef? then {at.m} else {}
  {
    match at
    case MapRef(m) => seg.Field? && seg.name in m.entries
    case SliceRef(a) => seg.Index? && seg.i < a.Length
    case _ => false
  }

  function EntryOf(at: Value, seg: Segment): Value
    requires HasEntry(at, seg)
    reads if at.MapRef? then {at.m} else if at.SliceRef? then {at.a} else {}
  {
    match at case MapRef(m) => m.entries[seg.name] case SliceRef(a) => a[seg.i]
  }

  // ---- The tree that lies in the heap. ----

  /** Which maps and slices a tree consists of. */
  datatype Shape = Plain(v: Json) | Container(at: Value, kids: map<Segment, Shape>)

  ghost function Val(s: Shape): Value {
    match s
    case Plain(v) => if v == Null then Nil else Scalar(v)
    case Container(at, _) => at
  }

  function FieldNames(segs: set<Segment>): (r: set<string>)
    ensures forall name :: name in r <==> Field(name) in segs
  {
    set seg | seg in segs && seg.Field? :: seg.name
  }

  ghost function Tree(s: Shape): Json {
    match s
    case Plain(v) => v
    case Container(at, kids) =>
      if at.SliceRef? then
        Arr(seq(at.a.Length, i requires 0 <= i < at.a.Length => if Index(i) in kids then Tree(kids[Index(i)]) else Null))
      else Obj(map name | name in FieldNames(kids.Keys) :: Tree(kids[Field(name)]))
  }

  ghost function Cells(s: Shape): set<object> {
    match s
    case Plain(_) => {}
    case Container(at, kids) =>
      (if at.MapRef? || at.SliceRef? then {Cell(at)} else {}) + set seg, o | seg in kids && o in Cells(kids[seg]) :: o
  }

  /** No map or slice occurs twice: what is written in one place changes nothing elsewhere. */
  ghost predicate Tidy(s: Shape) {
    match s
    case Plain(v) => !v.Arr? && !v.Obj?
    case Container(at, kids) =>
      && (at.MapRef? || at.SliceRef?)
      && (at.MapRef? ==> forall seg | seg in kids :: seg.Field?)
      && (at.SliceRef? ==> forall seg :: seg in kids <==> seg.Index? && seg.i < at.a.Length)
      && (forall seg | seg in kids :: Tidy(kids[seg]) && Cell(at) !in Cells(kids[seg]))
      && forall seg, other | seg in kids && other in kids && seg != other :: Cells(kids[seg]) !! Cells(kids[other])
  }

  /** The heap has the tree in it. */
  ghost predicate Held(s: Shape)
    reads Cells(s)
  {
    s.Container? && (s.at.MapRef? || s.at.SliceRef?) ==>
      && (forall seg :: seg in s.kids <==> HasEntry(s.at, seg))
      && forall seg | seg in s.kids :: EntryOf(s.at, seg) == Val(s.kids[seg]) && Held(s.kids[seg])
  }

  lemma MapTree(s: Shape)
    requires Tidy(s) && s.Container? && s.at.MapRef?
    ensures Tree(s).Obj? && forall name :: name in Tree(s).fields <==> Field(name) in s.kids
    ensures forall name | name in Tree(s).fields :: Tree(s).fields[name] == Tree(s.kids[Field(name)])
  {
  }

  lemma SliceTree(s: Shape)
    requires Tidy(s) && s.Container? && s.at.SliceRef?
    ensures Tree(s).Arr? && |Tree(s).items| == s.at.a.Length
    ensures forall seg :: seg in s.kids <==> seg.Index? && seg.i < s.at.a.Length
    ensures forall i | 0 <= i < s.at.a.Length :: Index(i) in s.kids && Tree(s).items[i] == Tree(s.kids[Index(i)])
  {
    forall i | 0 <= i < s.at.a.Length ensures Index(i) in s.kids && Tree(s).items[i] == Tree(s.kids[Index(i)]) {
      assert Index(i) in s.kids;
    }
  }

  /** What the tree looks like from its root. */
  lemma TreeKnown(s: Shape, seg: Segment)
    requires Tidy(s)
    ensures Matches(Tree(s), seg) <==> s.Container? && if seg.Index? then s.at.SliceRef? else s.at.MapRef?
    ensures Matches(Tree(s), seg) ==> (Present(Tree(s), seg) <==> seg in s.kids)
    ensures Matches(Tree(s), seg) ==> At(Tree(s), seg) == if seg in s.kids then Tree(s.kids[seg]) else Null
  {
    if s.Container? {
      if s.at.MapRef? {
        MapTree(s);
      } else {
        SliceTree(s);
      }
    }
    hide Tree, Cells;
  }

  /** Replacing one member of the root. */
  lemma TreeWith(s: Shape, seg: Segment, kid: Shape)
    requires Tidy(s) && s.Container? && Matches(Tree(s), seg) && (seg.Index? ==> seg in s.kids)
    requires Tidy(Container(s.at, s.kids[seg := kid]))
    ensures Tree(Container(s.at, s.kids[seg := kid])) == With(Tree(s), seg, Tree(kid))
  {
    hide Tree, Cells, Tidy;
    var t := Container(s.at, s.kids[seg := kid]);
    TreeKnown(s, seg);
    if s.at.MapRef? {
      MapTree(s);
      MapTree(t);
      assert Tree(t).fields == With(Tree(s), seg, Tree(kid)).fields;
    } else {
      TidyContainer(s);
      SliceTree(s);
      SliceTree(t);
      assert Tree(t).items == With(Tree(s), seg, Tree(kid)).items;
    }
  }

  lemma TidyContainer(s: Shape)
    requires Tidy(s) && s.Container?
    ensures s.at.MapRef? || s.at.SliceRef?
  {
  }

  // ---- A container with one member left open. ----

  /** Where the walk has entered a container: the member at `seg`, a null in `shape`, is looked at separately. */
  datatype Frame = Frame(shape: Shape, seg: Segment)

  ghost predicate FrameOk(f: Frame) {
    f.shape.Container? && f.seg in f.shape.kids && f.shape.kids[f.seg] == Plain(Null) && Tidy(f.shape)
  }

  ghost function Fill(f: Frame, s: Shape): Shape
    requires f.shape.Container?
  {
    Container(f.shape.at, f.shape.kids[f.seg := s])
  }

  ghost function Open(c: Shape, seg: Segment): Frame
    requires c.Container?
  {
    Frame(Container(c.at, c.kids[seg := Plain(Null)]), seg)
  }

  /** Everything but the open member is in the heap. */
  ghost predicate HeldAround(f: Frame)
    reads Cells(f.shape)
  {
    f.shape.Container? && (f.shape.at.MapRef? || f.shape.at.SliceRef?) ==>
      && (forall seg | seg != f.seg :: seg in f.shape.kids <==> HasEntry(f.shape.at, seg))
      && forall seg | seg in f.shape.kids && seg != f.seg ::
           EntryOf(f.shape.at, seg) == Val(f.shape.kids[seg]) && Held(f.shape.kids[seg])
  }

  /** The open member is `v`. */
  ghost predicate Points(f: Frame, v: Value)
    reads Cells(f.shape)
  {
    && f.shape.Container? && (f.shape.at.MapRef? || f.shape.at.SliceRef?)
    && HasEntry(f.shape.at, f.seg) && EntryOf(f.shape.at, f.seg) == v
  }

  lemma CellsOf(at: Value, kids: map<Segment, Shape>)
    requires at.MapRef? || at.SliceRef?
    ensures forall o :: o in Cells(Container(at, kids)) <==> o == Cell(at) || exists seg :: seg in kids && o in Cells(kids[seg])
  {
  }

  lemma KidsWithin(s: Shape)
    requires s.Container? && (s.at.MapRef? || s.at.SliceRef?)
    ensures Cell(s.at) in Cells(s) && forall seg | seg in s.kids :: Cells(s.kids[seg]) <= Cells(s)
  {
  }

  lemma CellsWithin(at: Value, kids: map<Segment, Shape>, bound: set<object>)
    requires (at.MapRef? || at.SliceRef?) && Cell(at) in bound && forall seg | seg in kids :: Cells(kids[seg]) <= bound
    ensures Cells(Container(at, kids)) <= bound
  {
  }

  lemma FillCells(f: Frame, s: Shape)
    requires FrameOk(f)
    ensures Cells(Fill(f, s)) == Cells(f.shape) + Cells(s)
  {
    hide Cells, Tidy, Tree;
    TidyContainer(f.shape);
    PlainTree(Null);
    KidsWithin(f.shape);
    KidsWithin(Fill(f, s));
    var kids, more := f.shape.kids, f.shape.kids[f.seg := s];
    assert more[f.seg] == s && forall seg | seg != f.seg && seg in more :: seg in kids && more[seg] == kids[seg];
    CellsWithin(f.shape.at, more, Cells(f.shape) + Cells(s));
    forall seg | seg in kids ensures Cells(kids[seg]) <= Cells(Fill(f, s)) {
      assert seg != f.seg ==> seg in more && more[seg] == kids[seg];
    }
    CellsWithin(f.shape.at, kids, Cells(Fill(f, s)));
    assert Container(f.shape.at, kids) == f.shape;
  }

  /** What being tidy says about a container, without going into its members. */
  lemma TidyIff(at: Value, kids: map<Segment, Shape>)
    ensures Tidy(Container(at, kids)) <==>
            && (at.MapRef? || at.SliceRef?)
            && (at.MapRef? ==> forall seg | seg in kids :: seg.Field?)
            && (at.SliceRef? ==> forall seg :: seg in kids <==> seg.Index? && seg.i < at.a.Length)
            && (forall seg | seg in kids :: Tidy(kids[seg]) && Cell(at) !in Cells(kids[seg]))
            && forall seg, other | seg in kids && other in kids && seg != other :: Cells(kids[seg]) !! Cells(kids[other])
  {
  }

  /** Changing one member keeps a container tidy if the new member has nothing in common with the rest. */
  lemma TidyUpdate(at: Value, kids: map<Segment, Shape>, seg: Segment, kid: Shape)
    requires Tidy(Container(at, kids)) && Tidy(kid) && ((at.MapRef? && seg.Field?) || seg in kids)
    requires forall o | o in Cells(kid) :: o != Cell(at) && forall other | other in kids && other != seg :: o !in Cells(kids[other])
    ensures Tidy(Container(at, kids[seg := kid]))
  {
    hide Tidy, Cells, Tree;
    TidyIff(at, kids);
    TidyIff(at, kids[seg := kid]);
  }

  lemma FillTidy(f: Frame, s: Shape)
    requires FrameOk(f) && Tidy(s) && Cells(f.shape) !! Cells(s)
    ensures Tidy(Fill(f, s)) && Tree(Fill(f, s)) == With(Tree(f.shape), f.seg, Tree(s))
  {
    hide Tree, Cells, Tidy;
    TidyContainer(f.shape);
    CellsOf(f.shape.at, f.shape.kids);
    TreeKnown(f.shape, f.seg);
    FrameMatches(f);
    KidsWithin(f.shape);
    assert f.shape == Container(f.shape.at, f.shape.kids);
    TidyUpdate(f.shape.at, f.shape.kids, f.seg, s);
    TreeWith(f.shape, f.seg, s);
  }

  lemma FillHeld(f: Frame, s: Shape)
    requires FrameOk(f) && HeldAround(f) && Points(f, Val(s)) && Held(s)
    ensures Held(Fill(f, s)) && Val(Fill(f, s)) == f.shape.at
  {
    hide Tree, Cells;
  }

  /** A container may be left open where it has a member; a map anywhere. */
  ghost predicate Openable(c: Shape, seg: Segment) {
    Tidy(c) && c.Container? && Matches(Tree(c), seg) && (seg.Index? ==> seg in c.kids)
  }

  lemma OpenCells(c: Shape, seg: Segment)
    requires c.Container? && (c.at.MapRef? || c.at.SliceRef?)
    ensures Cells(Open(c, seg).shape) <= Cells(c)
    ensures forall o | o in Cells(Open(c, seg).shape) && o != Cell(c.at) ::
              exists other | other in c.kids :: other != seg && o in Cells(c.kids[other])
    ensures forall other | other in c.kids :: Cells(c.kids[other]) <= Cells(c)
  {
    CellsOf(c.at, c.kids);
    CellsOf(c.at, c.kids[seg := Plain(Null)]);
    PlainTree(Null);
    hide Cells;
    var kids := c.kids[seg := Plain(Null)];
    forall o | o in Cells(Open(c, seg).shape) && o != Cell(c.at)
      ensures o in Cells(c) && exists other | other in c.kids :: other != seg && o in Cells(c.kids[other])
    {
      var other :| other in kids && o in Cells(kids[other]);
      assert other != seg && kids[other] == c.kids[other];
    }
  }

  lemma OpenTidy(c: Shape, seg: Segment)
    requires Openable(c, seg)
    ensures FrameOk(Open(c, seg)) && Cells(Open(c, seg).shape) <= Cells(c)
    ensures seg in c.kids ==> Tidy(c.kids[seg]) && Cells(c.kids[seg]) <= Cells(c) && Cells(c.kids[seg]) !! Cells(Open(c, seg).shape)
  {
    hide Tree, Cells, Tidy;
    TreeKnown(c, seg);
    TidyContainer(c);
    TidyIff(c.at, c.kids);
    OpenCells(c, seg);
    PlainTree(Null);
    TidyUpdate(c.at, c.kids, seg, Plain(Null));
  }

  lemma OpenHeld(c: Shape, seg: Segment)
    requires Openable(c, seg) && Held(c)
    ensures HeldAround(Open(c, seg))
    ensures seg in c.kids ==> Points(Open(c, seg), Val(c.kids[seg])) && Held(c.kids[seg])
  {
    hide Tree;
  }

  lemma OpenWith(c: Shape, seg: Segment)
    requires Openable(c, seg)
    ensures Matches(Tree(Open(c, seg).shape), seg)
    ensures forall x :: With(Tree(Open(c, seg).shape), seg, x) == With(Tree(c), seg, x)
  {
    hide Tree, Cells, Tidy;
    OpenTidy(c, seg);
    TreeWith(c, seg, Plain(Null));
    assert Tree(Plain(Null)) == Null by {
      PlainTree(Null);
    }
    forall x ensures With(With(Tree(c), seg, Null), seg, x) == With(Tree(c), seg, x) {
      WithTwice(Tree(c), seg, Null, x);
    }
  }

  lemma PlainTree(v: Json)
    ensures Tree(Plain(v)) == v && Cells(Plain(v)) == {} && Held(Plain(v)) && (!v.Arr? && !v.Obj? ==> Tidy(Plain(v)))
  {
  }

  lemma WithTwice(t: Json, seg: Segment, x: Json, y: Json)
    requires Matches(t, seg)
    ensures With(With(t, seg, x), seg, y) == With(t, seg, y)
  {
    if seg.Index? {
      assert With(With(t, seg, x), seg, y).items == With(t, seg, y).items;
    }
  }

  // ---- The way from the root to where the walk is. ----

  type Way = seq<Frame>

  ghost function WayCells(way: Way): set<object> {
    if way == [] then {} else WayCells(way[..|way| - 1]) + Cells(way[|way| - 1].shape)
  }

  ghost predicate WayOk(way: Way) {
    way != [] ==>
      var f := way[|way| - 1];
      FrameOk(f) && WayCells(way[..|way| - 1]) !! Cells(f.shape) && WayOk(way[..|way| - 1])
  }

  /** The containers on the way are in the heap, each with the next one in its open member, and `v` in the last one's. */
  ghost predicate WayHeld(way: Way, v: Value)
    reads WayCells(way)
  {
    way != [] ==>
      var f := way[|way| - 1];
      HeldAround(f) && Points(f, v) && f.shape.Container? && WayHeld(way[..|way| - 1], f.shape.at)
  }

  /** The whole tree, with `s` at the end of the way. */
  ghost function Whole(way: Way, s: Shape): Shape {
    if way == [] then s
    else
      var f := way[|way| - 1];
      if f.shape.Container? then Whole(way[..|way| - 1], Fill(f, s)) else s
  }

  /** A write at the end of the way, seen from the root. */
  ghost function PutIn(way: Way, w: Written): Written {
    if way == [] then w
    else
      var f := way[|way| - 1];
      if Matches(Tree(f.shape), f.seg) then PutIn(way[..|way| - 1], Written(With(Tree(f.shape), f.seg, w.tree), w.ok)) else w
  }

  lemma {:induction false} WholeOk(way: Way, s: Shape, ok: bool)
    requires WayOk(way) && WayHeld(way, Val(s)) && Tidy(s) && Held(s) && WayCells(way) !! Cells(s)
    ensures Tidy(Whole(way, s)) && Held(Whole(way, s)) && Cells(Whole(way, s)) == WayCells(way) + Cells(s)
    ensures way != [] ==> way[0].shape.Container?
    ensures Val(Whole(way, s)) == if way == [] then Val(s) else way[0].shape.at
    ensures PutIn(way, Written(Tree(s), ok)) == Written(Tree(Whole(way, s)), ok)
    decreases |way|
  {
    hide Tree, Cells, Tidy, Held, HeldAround, Points;
    if way != [] {
      var f := way[|way| - 1];
      FillCells(f, s);
      FillTidy(f, s);
      FillHeld(f, s);
      FrameMatches(f);
      WholeOk(way[..|way| - 1], Fill(f, s), ok);
    }
  }

  lemma FrameMatches(f: Frame)
    requires FrameOk(f)
    ensures Matches(Tree(f.shape), f.seg) && (f.shape.at.MapRef? || f.shape.at.SliceRef?) && Cell(f.shape.at) in Cells(f.shape)
    ensures f.shape.at.MapRef? ==> f.seg.Field?
    ensures f.shape.at.SliceRef? ==> f.seg.Index? && f.seg.i < f.shape.at.a.Length
  {
    TreeKnown(f.shape, f.seg);
  }

  /** Writes one entry of a map or slice: the member that is left open. */
  method SetEntry(at: Value, seg: Segment, x: Value, ghost f: Frame)
    requires FrameOk(f) && f.shape.at == at && f.seg == seg && HeldAround(f)
    requires (at.MapRef? && seg.Field?) || (at.SliceRef? && seg.Index? && seg.i < at.a.Length)
    modifies Cell(at)
    ensures HeldAround(f) && Points(f, x)
  {
    hide Tree;
    match at {
      case MapRef(m) => m.entries := m.entries[seg.name := x];
      case SliceRef(a) => a[seg.i] := x;
    }
  }

  // ---- The walk. ----

  /** The walk is at `cur`, and the whole tree is in the heap. */
  ghost predicate Placed(way: Way, cur: Shape)
    reads WayCells(way), Cells(cur)
  {
    WayOk(way) && WayHeld(way, Val(cur)) && Tidy(cur) && Held(cur) && WayCells(way) !! Cells(cur)
  }

  /** `parent` is the container that the walk has just left, and the key or index says through which member. */
  ghost predicate ParentIs(way: Way, parent: Value, parentKey: string, parentIndex: nat) {
    way != [] ==>
      var f := way[|way| - 1];
      && f.shape.Container? && parent == f.shape.at
      && (parent.MapRef? ==> f.seg == Field(parentKey)) && (parent.SliceRef? ==> f.seg == Index(parentIndex))
  }

  /** Lets the parent refer to a new value. */
  method UpdateParent(parent: Value, key: string, index: nat, value: Value, ghost way: Way)
    requires way != [] && WayOk(way) && ParentIs(way, parent, key, index) && HeldAround(way[|way| - 1])
    modifies if parent.MapRef? || parent.SliceRef? then {Cell(parent)} else {}
    ensures HeldAround(way[|way| - 1]) && Points(way[|way| - 1], value)
  {
    FrameMatches(way[|way| - 1]);
    match parent {
      case MapRef(_) => SetEntry(parent, Field(key), value, way[|way| - 1]);
      case SliceRef(_) => SetEntry(parent, Index(index), value, way[|way| - 1]);
      case _ =>
    }
  }

  /** What a write at `seg` leaves is the same. */
  ghost predicate SameFor(t: Json, u: Json, seg: Segment) {
    && Matches(t, seg) && Matches(u, seg) && At(t, seg) == At(u, seg)
    && forall x :: With(t, seg, x) == With(u, seg, x)
  }

  function Indices(n: nat): (r: set<Segment>)
    ensures forall seg :: seg in r <==> seg.Index? && seg.i < n
  {
    var r := set i | 0 <= i < n :: Index(i);
    assert forall i: nat | i < n :: Index(i) in r;
    r
  }

  /** The slice with its members in a longer array. */
  ghost function Longer(s: Shape, a: array<Value>): Shape
    requires s.Container?
  {
    Container(SliceRef(a), map seg | seg in Indices(a.Length) :: if seg in s.kids then s.kids[seg] else Plain(Null))
  }

  lemma LongerCells(s: Shape, a: array<Value>)
    requires Tidy(s) && s.Container? && s.at.SliceRef? && s.at.a.Length <= a.Length
    ensures Cells(Longer(s, a)) <= Cells(s) + {a}
    ensures forall seg | seg in s.kids :: seg in Longer(s, a).kids && Longer(s, a).kids[seg] == s.kids[seg]
    ensures forall seg | seg in Longer(s, a).kids && seg !in s.kids :: Longer(s, a).kids[seg] == Plain(Null)
  {
    CellsOf(s.at, s.kids);
    CellsOf(SliceRef(a), Longer(s, a).kids);
    PlainTree(Null);
    hide Cells;
    forall o | o in Cells(Longer(s, a)) && o != a ensures o in Cells(s) {
      var seg :| seg in Longer(s, a).kids && o in Cells(Longer(s, a).kids[seg]);
      assert seg in s.kids;
    }
  }

  lemma LongerTidy(s: Shape, a: array<Value>)
    requires Tidy(s) && s.Container? && s.at.SliceRef? && s.at.a.Length <= a.Length && a !in Cells(s)
    ensures Tidy(Longer(s, a))
  {
    LongerCells(s, a);
    CellsOf(s.at, s.kids);
    PlainTree(Null);
    hide Cells, Tree;
    assert Tidy(Plain(Null));
  }

  lemma LongerSame(s: Shape, a: array<Value>)
    requires Tidy(s) && s.Container? && s.at.SliceRef? && s.at.a.Length < a.Length && a !in Cells(s)
    ensures SameFor(Tree(Longer(s, a)), Tree(s), Index(a.Length - 1)) && Openable(Longer(s, a), Index(a.Length - 1))
  {
    hide Cells, Tree, Tidy;
    var t, seg := Longer(s, a), Index(a.Length - 1);
    LongerTidy(s, a);
    LongerCells(s, a);
    SliceTree(s);
    SliceTree(t);
    PlainTree(Null);
    forall x ensures With(Tree(t), seg, x) == With(Tree(s), seg, x) {
      assert With(Tree(t), seg, x).items == With(Tree(s), seg, x).items;
    }
  }

  lemma LongerHeld(s: Shape, a: array<Value>)
    requires Tidy(s) && s.Container? && s.at.SliceRef? && Held(s)
    requires forall i | 0 <= i < a.Length :: a[i] == if i < s.at.a.Length then s.at.a[i] else Nil
    ensures Held(Longer(s, a))
  {
    hide Tree, Cells;
    var t := Longer(s, a);
    forall seg | seg in t.kids ensures EntryOf(t.at, seg) == Val(t.kids[seg]) && Held(t.kids[seg]) {
      if seg.i < s.at.a.Length {
        assert seg in s.kids && EntryOf(s.at, seg) == s.at.a[seg.i];
      } else {
        PlainTree(Null);
      }
    }
  }

  lemma {:induction false} CellsAllocated(s: Shape)
    ensures forall o | o in Cells(s) :: allocated(o)
  {
    if s.Container? {
      forall seg | seg in s.kids ensures forall o | o in Cells(s.kids[seg]) :: allocated(o) {
        CellsAllocated(s.kids[seg]);
      }
      if s.at.MapRef? {
        assert allocated(s.at.m);
      } else if s.at.SliceRef? {
        assert allocated(s.at.a);
      }
    }
  }

  lemma {:induction false} WayAllocated(way: Way)
    ensures forall o | o in WayCells(way) :: allocated(o)
  {
    if way != [] {
      CellsAllocated(way[|way| - 1].shape);
      WayAllocated(way[..|way| - 1]);
    }
  }

  method Lengthen(items: array<Value>, n: nat, ghost way: Way, ghost cur: Shape)
    returns (longer: array<Value>, ghost grown: Shape)
    requires Placed(way, cur) && cur.Container? && cur.at == SliceRef(items) && items.Length < n
    ensures Cells(grown) <= Cells(cur) + {longer} && fresh(longer) && Val(grown) == SliceRef(longer)
    ensures longer !in WayCells(way) + Cells(cur) && Placed(way, cur)
    ensures Tidy(grown) && Held(grown) && WayCells(way) !! Cells(grown)
    ensures Openable(grown, Index(n - 1)) && SameFor(Tree(grown), Tree(cur), Index(n - 1))
  {
    hide Tree, Tidy, Cells, WayOk, WayHeld, SameFor, Openable;
    CellsAllocated(cur);
    WayAllocated(way);
    longer := new Value[n](i requires 0 <= i reads items => if i < items.Length then items[i] else Nil);
    grown := Longer(cur, longer);
    LongerTidy(cur, longer);
    LongerCells(cur, longer);
    LongerHeld(cur, longer);
    LongerSame(cur, longer);
  }

  /** A slice that is too short for the index is copied into a longer one, which takes its place in the parent. */
  method HandleArraySegment(current: Value, parent: Value, index: nat, parentKey: string, parentIndex: nat,
                            ghost way: Way, ghost cur: Shape)
    returns (ok: bool, newCurrent: Value, ghost grown: Shape, ghost more: set<object>)
    requires Placed(way, cur) && current == Val(cur) && ParentIs(way, parent, parentKey, parentIndex)
    requires way == [] ==> current.MapRef?
    modifies WayCells(way)
    ensures ok == Matches(Tree(cur), Index(index)) && Placed(way, grown) && newCurrent == Val(grown)
    ensures fresh(more) && Cells(grown) <= Cells(cur) + more
    ensures !ok ==> grown == cur
    ensures ok ==> Openable(grown, Index(index)) && SameFor(Tree(grown), Tree(cur), Index(index))
  {
    hide Tree, Tidy, Cells, HeldAround, Points, Held, FrameOk, SameFor;
    TreeKnown(cur, Index(index));
    if !current.SliceRef? {
      return false, current, cur, {};
    }
    var items := current.a;
    if index >= items.Length {
      var newArray;
      newArray, grown := Lengthen(items, index + 1, way, cur);
      FrameMatches(way[|way| - 1]);
      assert Cell(parent) in WayCells(way) && Cell(parent) !in WayCells(way[..|way| - 1]);
      WayAllocated(way);
      CellsAllocated(grown);
      UpdateParent(parent, parentKey, parentIndex, SliceRef(newArray), way);
      return true, SliceRef(newArray), grown, {newArray};
    }
    AlreadyThere(cur, index);
    return true, current, cur, {};
  }

  lemma AlreadyThere(cur: Shape, index: nat)
    requires Tidy(cur) && cur.Container? && cur.at.SliceRef? && index < cur.at.a.Length
    ensures Openable(cur, Index(index)) && SameFor(Tree(cur), Tree(cur), Index(index))
  {
    TreeKnown(cur, Index(index));
  }

  /** An empty slice or map for the next step. */
  method NewNext(next: Segment) returns (v: Value, ghost s: Shape)
    ensures Val(s) == v && Tidy(s) && Held(s) && Tree(s) == NewContainer(next)
    ensures (v.MapRef? || v.SliceRef?) && Cells(s) == {Cell(v)} && fresh(Cell(v))
  {
    if next.Index? {
      var a := new Value[0];
      v := SliceRef(a);
    } else {
      var m := new GoMap();
      v := MapRef(m);
    }
    s := Container(v, map[]);
  }

  /** The member that the next step selects from: what is there, or an empty container in place of nothing. */
  method GetOrCreateNext(at: Value, seg: Segment, following: Segment, ghost cur: Shape)
    returns (next: Value, ghost kid: Shape, ghost more: set<object>)
    requires Openable(cur, seg) && Held(cur) && Val(cur) == at
    modifies Cells(cur)
    ensures var f := Open(cur, seg);
            && FrameOk(f) && HeldAround(f) && Points(f, next) && next == Val(kid) && Tidy(kid) && Held(kid)
            && Cells(kid) !! Cells(f.shape) && Cells(f.shape) <= Cells(cur)
    ensures fresh(more) && Cells(kid) <= Cells(cur) + more && Tree(kid) == Next(Tree(cur), seg, following)
  {
    hide Tree, Tidy, Cells, FrameOk;
    ghost var f := Open(cur, seg);
    OpenTidy(cur, seg);
    OpenHeld(cur, seg);
    TreeKnown(cur, seg);
    TidyContainer(cur);
    if HasEntry(at, seg) && EntryOf(at, seg) != Nil {
      NilIffNull(cur.kids[seg]);
      return EntryOf(at, seg), cur.kids[seg], {};
    }
    if seg in cur.kids {
      NilIffNull(cur.kids[seg]);
    }
    FrameMatches(f);
    CellsAllocated(cur);
    next, kid := NewNext(following);
    more := Cells(kid);
    SetEntry(at, seg, next, f);
  }

  lemma NilIffNull(s: Shape)
    requires Tidy(s)
    ensures Val(s) == Nil <==> Tree(s) == Null
  {
  }

  /** Descending by one step: the write below, put back into the container, is the write here. */
  lemma PutDown(cur: Json, t: Json, f: Json, rest: Path, kid: Json, v: Json)
    requires |rest| > 1 && SameFor(t, cur, rest[0]) && Matches(f, rest[0]) && kid == Next(t, rest[0], rest[1])
    requires forall x :: With(f, rest[0], x) == With(t, rest[0], x)
    ensures var w := Put(kid, rest[1..], v);
            Put(cur, rest, v) == Written(With(f, rest[0], w.tree), w.ok)
  {
  }

  lemma PutInDeeper(way: Way, f: Frame, w: Written)
    requires Matches(Tree(f.shape), f.seg)
    ensures PutIn(way + [f], w) == PutIn(way, Written(With(Tree(f.shape), f.seg, w.tree), w.ok))
  {
    assert (way + [f])[..|way|] == way;
  }

  lemma DeeperOk(way: Way, f: Frame, kid: Shape)
    requires WayOk(way) && FrameOk(f) && WayCells(way) !! Cells(f.shape)
    ensures WayOk(way + [f]) && WayCells(way + [f]) == WayCells(way) + Cells(f.shape)
    ensures HeldAround(f) && Points(f, Val(kid)) && WayHeld(way, f.shape.at) ==> WayHeld(way + [f], Val(kid))
  {
    hide Tree, Tidy, Cells;
    assert (way + [f])[..|way|] == way;
  }

  /** One step down, creating what is missing. */
  method Descend(current: Value, seg: Segment, following: Segment, ghost way: Way, ghost cur: Shape,
                 ghost was: Json, ghost rest: Path, ghost v: Json)
    returns (next: Value, ghost way': Way, ghost kid: Shape, ghost more: set<object>)
    requires Placed(way, cur) && current == Val(cur) && Openable(cur, seg)
    requires |rest| > 1 && rest[0] == seg && rest[1] == following && SameFor(Tree(cur), was, seg)
    modifies Cells(cur)
    ensures |way'| == |way| + 1 && way' == way + [Frame(way'[|way|].shape, seg)] && Placed(way', kid) && next == Val(kid)
    ensures way'[|way|].shape.Container? && way'[|way|].shape.at == current
    ensures (current.MapRef? ==> seg.Field?) && (current.SliceRef? ==> seg.Index?)
    ensures fresh(more) && WayCells(way') + Cells(kid) <= WayCells(way) + Cells(cur) + more
    ensures PutIn(way', Put(Tree(kid), rest[1..], v)) == PutIn(way, Put(was, rest, v))
  {
    hide Tree, Tidy, Cells, FrameOk, Held, HeldAround, Points, Openable, SameFor;
    WayAllocated(way);
    OpenedAs(cur, seg);
    ghost var f := Open(cur, seg);
    PutDown(was, Tree(cur), Tree(f.shape), rest, Next(Tree(cur), seg, following), v);
    PutInDeeper(way, f, Put(Next(Tree(cur), seg, following), rest[1..], v));
    next, kid, more := GetOrCreateNext(current, seg, following, cur);
    DeeperOk(way, f, kid);
    way' := way + [f];
  }

  lemma AtTheRoot(s: Shape)
    requires Tidy(s) && Held(s)
    ensures Placed([], s) && WayCells([]) == {} && forall w :: PutIn([], w) == w
  {
  }

  lemma AtTheEnd(s: Shape, segments: Path, v: Json)
    ensures segments == [] ==> Put(Tree(s), segments, v) == Written(Tree(s), true)
    ensures segments[0..] == segments
  {
  }

  /** How a member is left open. */
  lemma OpenedAs(c: Shape, seg: Segment)
    requires Openable(c, seg)
    ensures c.Container? && Open(c, seg).shape.at == c.at && Open(c, seg).shape.Container?
    ensures (c.at.MapRef? ==> seg.Field?) && (c.at.SliceRef? ==> seg.Index?)
    ensures Matches(Tree(c), seg) && Matches(Tree(Open(c, seg).shape), seg)
    ensures forall x :: With(Tree(Open(c, seg).shape), seg, x) == With(Tree(c), seg, x)
  {
    hide Tree, Tidy, Cells;
    TreeKnown(c, seg);
    OpenWith(c, seg);
  }

  lemma OpenContainer(c: Shape, seg: Segment)
    requires Openable(c, seg)
    ensures c.Container? && Open(c, seg).shape.at == c.at
  {
  }

  /** The last step: the value takes its place. */
  method WriteLast(current: Value, seg: Segment, value: Value, ghost way: Way, ghost cur: Shape, ghost vs: Shape,
                   ghost was: Json)
    returns (ghost end: Shape)
    requires Placed(way, cur) && current == Val(cur) && Openable(cur, seg) && SameFor(Tree(cur), was, seg)
    requires Val(vs) == value && Tidy(vs) && Held(vs) && (WayCells(way) + Cells(cur)) !! Cells(vs)
    modifies Cells(cur)
    ensures Tidy(end) && Held(end) && Cells(end) <= WayCells(way) + Cells(cur) + Cells(vs)
    ensures way != [] ==> way[0].shape.Container?
    ensures Val(end) == if way == [] then current else way[0].shape.at
    ensures Written(Tree(end), true) == PutIn(way, Put(was, [seg], Tree(vs)))
  {
    hide Tree, Tidy, Cells, Held, HeldAround, Points, FrameOk;
    ghost var f := Open(cur, seg);
    OpenContainer(cur, seg);
    OpenTidy(cur, seg);
    OpenHeld(cur, seg);
    OpenWith(cur, seg);
    FrameMatches(f);
    WayAllocated(way);
    CellsAllocated(vs);
    SetEntry(current, seg, value, f);
    FillCells(f, vs);
    FillTidy(f, vs);
    FillHeld(f, vs);
    WholeOk(way, Fill(f, vs), true);
    end := Whole(way, Fill(f, vs));
  }

  /** The container that the step selects from, if it is of the right kind; a slice may have been made longer. */
  method Enter(current: Value, segment: Segment, parent: Value, parentKey: string, parentIndex: nat,
               ghost way: Way, ghost cur: Shape)
    returns (ok: bool, container: Value, ghost entered: Shape, ghost more: set<object>)
    requires Placed(way, cur) && current == Val(cur) && ParentIs(way, parent, parentKey, parentIndex)
    requires way == [] ==> current.MapRef?
    modifies WayCells(way)
    ensures Placed(way, entered) && container == Val(entered) && fresh(more) && Cells(entered) <= Cells(cur) + more
    ensures ok == Matches(Tree(cur), segment) && (!ok ==> entered == cur) && (way == [] ==> container == current)
    ensures ok ==> Openable(entered, segment) && SameFor(Tree(entered), Tree(cur), segment)
  {
    hide Tree, Tidy, Cells, WayHeld, Held;
    match segment {
      case Index(n) =>
        TreeKnown(cur, segment);
        ok, container, entered, more := HandleArraySegment(current, parent, n, parentKey, parentIndex, way, cur);
      case Field(_) =>
        TreeKnown(cur, segment);
        return current.MapRef?, current, cur, {};
    }
  }

  /**
    Writing in place is writing into the tree: whatever maps and slices are created, made longer and linked again,
    the tree in the heap changes as `Put` says, and the root stays the same map.
   */
  method SetValueAtPath(resource: Value, segments: Path, value: Value, ghost start: Shape, ghost vs: Shape)
    returns (ok: bool, ghost end: Shape, ghost more: set<object>)
    requires resource.MapRef? && Val(start) == resource && Tidy(start) && Held(start)
    requires Val(vs) == value && Tidy(vs) && Held(vs) && Cells(start) !! Cells(vs)
    modifies Cells(start)
    ensures Tidy(end) && Held(end) && Val(end) == resource
    ensures Written(Tree(end), ok) == Put(Tree(start), segments, Tree(vs))
    ensures fresh(more) && Cells(end) <= Cells(start) + Cells(vs) + more
  {
    hide Tree, Tidy, Cells, Held, HeldAround, Points, FrameOk, WayHeld, WayOk, Put, PutIn, SameFor, Openable;
    var parent, current, parentKey, parentIndex := resource, resource, "", 0;
    ghost var way: Way, cur := [], start;
    more := {};
    AtTheRoot(start);
    AtTheEnd(start, segments, Tree(vs));
    for i := 0 to |segments|
      invariant (i == 0 || i < |segments|) && |way| == i && (i == 0 ==> cur == start)
      invariant Placed(way, cur) && current == Val(cur) && ParentIs(way, parent, parentKey, parentIndex)
      invariant if way == [] then current == resource else way[0].shape.Container? && way[0].shape.at == resource
      invariant fresh(more) && WayCells(way) + Cells(cur) <= Cells(start) + more
      invariant Held(vs) && (WayCells(way) + Cells(cur)) !! Cells(vs)
      invariant PutIn(way, Put(Tree(cur), segments[i..], Tree(vs))) == Put(Tree(start), segments, Tree(vs))
    {
      var segment := segments[i];
      ghost var rest, was := segments[i..], Tree(cur);
      CellsAllocated(vs);
      ghost var found;
      ok, current, cur, found := Enter(current, segment, parent, parentKey, parentIndex, way, cur);
      more := more + found;
      if !ok {
        WholeOk(way, cur, false);
        PutStops(was, rest, Tree(vs));
        return false, Whole(way, cur), more;
      }
      CellsAllocated(vs);
      if i == |segments| - 1 {
        assert rest == [segment];
        end := WriteLast(current, segment, value, way, cur, vs, was);
        return true, end, more;
      }
      parent := current;
      match segment {
        case Index(n) => parentIndex := n;
        case Field(name) => parentKey := name;
      }
      assert rest[1..] == segments[i + 1..];
      current, way, cur, found := Descend(current, segment, segments[i + 1], way, cur, was, rest, Tree(vs));
      more := more + found;
    }
    return true, start, more;
  }

  lemma PutStops(t: Json, p: Path, v: Json)
    requires p != [] && !Matches(t, p[0])
    ensures Put(t, p, v) == Written(t, false)
  {
  }

  // ---- Removing omitted members. ----

  /** A map without one of its members. */
  ghost function Removed(c: Shape, seg: Segment): Shape
    requires c.Container?
  {
    Container(c.at, c.kids - {seg})
  }

  lemma RemovedOk(c: Shape, seg: Segment)
    requires Tidy(c) && c.Container? && c.at.MapRef?
    ensures Tidy(Removed(c, seg)) && Cells(Removed(c, seg)) <= Cells(c)
  {
    CellsOf(c.at, c.kids);
    CellsOf(c.at, c.kids - {seg});
    hide Tree, Cells;
    assert forall other | other in c.kids - {seg} :: other in c.kids && (c.kids - {seg})[other] == c.kids[other];
    forall o | o in Cells(Removed(c, seg)) ensures o in Cells(c) {
    }
  }

  method Delete(m: GoMap, name: string, ghost f: Frame)
    requires FrameOk(f) && f.shape.at == MapRef(m) && f.seg == Field(name) && HeldAround(f)
    modifies m
    ensures HeldAround(f) && Held(Removed(f.shape, f.seg))
  {
    hide Tree;
    m.entries := m.entries - {name};
    RemovedHeld(f);
  }

  lemma RemovedHeld(f: Frame)
    requires FrameOk(f) && HeldAround(f) && !HasEntry(f.shape.at, f.seg)
    ensures Held(Removed(f.shape, f.seg))
  {
    hide Tree, Cells, Tidy;
  }

  /** Members that have been looked at are gone if they were omitted, else cleaned; the others are as they were. */
  ghost predicate Cleaning(now: Shape, start: Shape, todo: set<string>) {
    && now.Container? && start.Container? && now.at == start.at && now.at.MapRef? && now.kids.Keys <= start.kids.Keys
    && (forall name | name in todo :: Field(name) in now.kids && now.kids[Field(name)] == start.kids[Field(name)])
    && (forall name | Field(name) in start.kids && name !in todo ::
          Field(name) in now.kids <==> Tree(start.kids[Field(name)]) != Omit)
    && forall name | Field(name) in now.kids && name !in todo ::
         Tree(now.kids[Field(name)]) == R.Clean(Tree(start.kids[Field(name)]))
  }

  lemma CleanedMap(now: Shape, start: Shape)
    requires Tidy(now) && Tidy(start) && Cleaning(now, start, {})
    ensures Tree(now) == R.Clean(Tree(start))
  {
    hide Tree, Cells, Tidy;
    MapTree(start);
    MapTree(now);
    var a, b := Tree(now).fields, Tree(start).fields;
    forall name ensures name in a <==> name in b && b[name] != Omit
      ensures name in a ==> a[name] == R.Clean(b[name])
    {
    }
    assert a == R.Clean(Tree(start)).fields;
  }

  lemma CleaningStarts(s: Shape)
    requires Tidy(s) && s.Container? && s.at.MapRef? && Held(s)
    ensures Cleaning(s, s, s.at.m.entries.Keys)
  {
    hide Tree, Cells;
  }

  lemma CleaningStep(now: Shape, start: Shape, todo: set<string>, name: string, next: Shape, cleaned: Shape)
    requires Cleaning(now, start, todo) && name in todo && next.Container? && next.at == now.at
    requires if Tree(start.kids[Field(name)]) == Omit then next.kids == now.kids - {Field(name)}
             else next.kids == now.kids[Field(name) := cleaned] && Tree(cleaned) == R.Clean(Tree(start.kids[Field(name)]))
    ensures Cleaning(next, start, todo - {name})
  {
    hide Tree, Cells, Tidy;
  }

  lemma FillFresh(f: Frame, kid: Shape, t: Shape, cleaned: Shape)
    requires FrameOk(f) && Cells(f.shape) <= Cells(t) && Cells(kid) <= Cells(t) && Cells(kid) !! Cells(f.shape)
    ensures Cells(Fill(f, cleaned)) - Cells(t) <= Cells(cleaned) - Cells(kid)
  {
    FillCells(f, cleaned);
  }

  /** One member of a map: deleted if it is omitted, else replaced by its cleaned value. */
  method CleanMember(m: GoMap, name: string, ghost t: Shape, ghost s: Shape)
    returns (ghost next: Shape, ghost cleaned: Shape, ghost more: set<object>)
    requires Tidy(t) && Held(t) && Val(t) == MapRef(m) && s.Container? && name in m.entries
    requires Field(name) in t.kids && Field(name) in s.kids && t.kids[Field(name)] == s.kids[Field(name)]
    modifies Cells(t)
    ensures Tidy(next) && Held(next) && Val(next) == MapRef(m) && next.Container?
    ensures fresh(more) && Cells(next) <= Cells(t) + more
    ensures if Tree(s.kids[Field(name)]) == Omit then next.kids == t.kids - {Field(name)}
            else next.kids == t.kids[Field(name) := cleaned] && Tree(cleaned) == R.Clean(Tree(s.kids[Field(name)]))
    decreases s, 0
  {
    hide Tree, Cells, Tidy, Held, HeldAround, FrameOk, R.Clean;
    ghost var seg := Field(name);
    ghost var kid, f := s.kids[seg], Open(t, seg);
    MapOpenable(t, seg);
    OpenTidy(t, seg);
    OpenHeld(t, seg);
    FrameMatches(f);
    OmitIff(kid);
    var child := m.entries[name];
    if child == Scalar(Omit) {
      Delete(m, name, f);
      FrameTidy(f);
      RemovedOk(f.shape, seg);
      next := Removed(f.shape, seg);
      assert next.kids == t.kids - {seg};
      return next, kid, {};
    }
    CellsAllocated(f.shape);
    var r;
    r, cleaned := CleanOmitSentinels(child, kid);
    CellsAllocated(cleaned);
    SetEntry(MapRef(m), Field(name), r, f);
    FillTidy(f, cleaned);
    FillHeld(f, cleaned);
    FillFresh(f, kid, t, cleaned);
    next := Fill(f, cleaned);
    assert next.kids == t.kids[seg := cleaned];
    more := Cells(cleaned) - Cells(kid);
  }

  lemma MapOpenable(t: Shape, seg: Segment)
    requires Tidy(t) && t.Container? && t.at.MapRef? && seg.Field?
    ensures Openable(t, seg)
  {
    TreeKnown(t, seg);
  }

  lemma FrameTidy(f: Frame)
    requires FrameOk(f)
    ensures Tidy(f.shape)
  {
  }

  lemma OmitIff(s: Shape)
    requires Tidy(s)
    ensures Val(s) == Scalar(Omit) <==> Tree(s) == Omit
  {
  }

  /** The members of a map in any order; what is not omitted is cleaned in turn. */
  method CleanMap(m: GoMap, ghost s: Shape) returns (ghost t: Shape)
    requires Tidy(s) && Held(s) && Val(s) == MapRef(m)
    modifies Cells(s)
    ensures Tidy(t) && Held(t) && Val(t) == MapRef(m) && Tree(t) == R.Clean(Tree(s)) && fresh(Cells(t) - Cells(s))
    decreases s, 1
  {
    hide Tree, Cells, Tidy, Held, R.Clean, Cleaning;
    t := s;
    var todo := m.entries.Keys;
    CleaningStarts(s);
    while todo != {}
      invariant Tidy(t) && Held(t) && Val(t) == MapRef(m) && t.Container? && Cleaning(t, s, todo) && fresh(Cells(t) - Cells(s))
      decreases todo
    {
      var name :| name in todo;
      MemberLeft(t, s, todo, name);
      ghost var next, cleaned, _ := CleanMember(m, name, t, s);
      CleaningStep(t, s, todo, name, next, cleaned);
      t := next;
      todo := todo - {name};
    }
    CleanedMap(t, s);
  }

  lemma MemberLeft(t: Shape, s: Shape, todo: set<string>, name: string)
    requires Cleaning(t, s, todo) && name in todo && Held(t)
    ensures Field(name) in t.kids && Field(name) in s.kids && t.kids[Field(name)] == s.kids[Field(name)]
    ensures name in t.at.m.entries
  {
    hide Tree;
    assert HasEntry(t.at, Field(name));
  }

  /** The clean-up pass in place: maps lose members, slices are copied without the omitted elements. */
  method CleanOmitSentinels(v: Value, ghost s: Shape) returns (r: Value, ghost t: Shape)
    requires Val(s) == v && Tidy(s) && Held(s)
    modifies Cells(s)
    ensures Val(t) == r && Tidy(t) && Held(t) && Tree(t) == R.Clean(Tree(s)) && fresh(Cells(t) - Cells(s))
    ensures v.MapRef? ==> r == v
    decreases s, 2
  {
    hide Tree, Cells, Held;
    match v {
      case MapRef(m) =>
        t := CleanMap(m, s);
        return v, t;
      case SliceRef(a) =>
        ghost var more;
        r, t, more := CleanSlice(a, s);
      case _ =>
        ScalarClean(s);
        return v, s;
    }
  }

  lemma ScalarClean(s: Shape)
    requires Tidy(s) && s.Plain?
    ensures R.Clean(Tree(s)) == Tree(s)
  {
  }

  // ---- Slices. ----

  /** Shapes that have nothing in common. */
  ghost predicate AllTidy(kids: seq<Shape>) {
    && (forall i | 0 <= i < |kids| :: Tidy(kids[i]))
    && forall i, j | 0 <= i < j < |kids| :: Cells(kids[i]) !! Cells(kids[j])
  }

  ghost function AllCells(kids: seq<Shape>): set<object> {
    set i, o | 0 <= i < |kids| && o in Cells(kids[i]) :: o
  }

  ghost function TreesOf(kids: seq<Shape>): seq<Json> {
    seq(|kids|, i requires 0 <= i < |kids| => Tree(kids[i]))
  }

  /** A slice of these members. */
  ghost function SliceOf(a: array<Value>, kids: seq<Shape>): Shape {
    Container(SliceRef(a), map seg | seg in Indices(|kids|) :: kids[seg.i])
  }

  lemma CellOwner(s: Shape, o: object) returns (seg: Segment)
    requires o in Cells(s) && s.Container? && (s.at.MapRef? || s.at.SliceRef?) && o != Cell(s.at)
    ensures seg in s.kids && o in Cells(s.kids[seg])
  {
    seg :| seg in s.kids && o in Cells(s.kids[seg]);
  }

  lemma SliceOfOk(a: array<Value>, kids: seq<Shape>)
    requires AllTidy(kids) && a.Length == |kids| && a !in AllCells(kids)
    ensures Tidy(SliceOf(a, kids)) && Tree(SliceOf(a, kids)) == Arr(TreesOf(kids))
    ensures Cells(SliceOf(a, kids)) <= AllCells(kids) + {a}
  {
    hide Cells;
    var s := SliceOf(a, kids);
    forall seg ensures seg in s.kids <==> seg.Index? && seg.i < |kids| {
    }
    assert forall i | 0 <= i < |kids| :: Cells(kids[i]) <= AllCells(kids);
    assert Tidy(s);
    SliceTree(s);
    assert Tree(s).items == TreesOf(kids);
    forall o: object | o in Cells(s) && o != a ensures o in AllCells(kids) {
      var seg := CellOwner(s, o);
      assert s.kids[seg] == kids[seg.i];
    }
  }

  lemma SliceOfHeld(a: array<Value>, kids: seq<Shape>)
    requires a.Length == |kids| && forall i | 0 <= i < |kids| :: a[i] == Val(kids[i]) && Held(kids[i])
    ensures Held(SliceOf(a, kids))
  {
    hide Cells, Tree;
    var s := SliceOf(a, kids);
    forall seg ensures seg in s.kids <==> seg.Index? && seg.i < |kids| {
    }
  }

  /** Elements looked at so far, and what is in the heap of them. */
  ghost predicate Kept(values: seq<Value>, kids: seq<Shape>)
    reads AllCells(kids)
  {
    AllTidy(kids) && |values| == |kids| && forall j | 0 <= j < |kids| :: values[j] == Val(kids[j]) && Held(kids[j])
  }

  lemma KeepOne(values: seq<Value>, kids: seq<Shape>, v: Value, kid: Shape)
    requires Kept(values, kids) && v == Val(kid) && Tidy(kid) && Held(kid) && AllCells(kids) !! Cells(kid)
    ensures Kept(values + [v], kids + [kid]) && AllCells(kids + [kid]) == AllCells(kids) + Cells(kid)
    ensures TreesOf(kids + [kid]) == TreesOf(kids) + [Tree(kid)]
  {
    hide Cells, Tree, Tidy, Held;
    var more := kids + [kid];
    assert more[|kids|] == kid && forall j | 0 <= j < |kids| :: more[j] == kids[j] && Cells(kids[j]) <= AllCells(kids);
    forall o: object ensures o in AllCells(more) <==> o in AllCells(kids) + Cells(kid) {
      if o in AllCells(more) {
        var j :| 0 <= j < |more| && o in Cells(more[j]);
        assert j < |kids| ==> o in Cells(kids[j]);
      }
    }
  }

  lemma CleanOneMore(items: seq<Json>, i: nat)
    requires i < |items|
    ensures R.CleanItems(items[..i + 1]) == R.CleanItems(items[..i]) + if items[i] == Omit then [] else [R.Clean(items[i])]
  {
    assert items[..i + 1] == items[..i] + [items[i]];
    R.CleanItemsAppend(items[..i], [items[i]]);
  }

  lemma AllAllocated(kids: seq<Shape>)
    ensures forall o | o in AllCells(kids) :: allocated(o)
  {
    forall i | 0 <= i < |kids| ensures forall o | o in Cells(kids[i]) :: allocated(o) {
      CellsAllocated(kids[i]);
    }
  }

  /** The elements from `i` on are as they were. */
  ghost predicate Untouched(s: Shape, i: nat, used: set<object>)
    requires Tidy(s) && s.Container? && s.at.SliceRef? && i <= s.at.a.Length
    reads Cells(s)
  {
    && s.at.a !in used
    && forall j | i <= j < s.at.a.Length ::
         Index(j) in s.kids && s.at.a[j] == Val(s.kids[Index(j)]) && Held(s.kids[Index(j)]) && Cells(s.kids[Index(j)]) !! used
  }

  /** One element: passed over if it is omitted, else cleaned. */
  method CleanElement(a: array<Value>, i: nat, filtered: seq<Value>, ghost kids: seq<Shape>, ghost s: Shape)
    returns (values: seq<Value>, ghost kept: seq<Shape>, ghost more: set<object>)
    requires Tidy(s) && Val(s) == SliceRef(a) && i < a.Length
    requires Kept(filtered, kids) && Untouched(s, i, AllCells(kids))
    requires AllCells(kids) !! {a} && TreesOf(kids) == R.CleanItems(Tree(s).items[..i])
    modifies Cells(s)
    ensures Kept(values, kept) && Untouched(s, i + 1, AllCells(kept))
    ensures Tree(s).Arr? && i < |Tree(s).items| && TreesOf(kept) == R.CleanItems(Tree(s).items[..i + 1])
    ensures fresh(more) && AllCells(kept) <= AllCells(kids) + Cells(s) + more
    decreases s, 0
  {
    hide Tree, Cells, Tidy, Held, AllTidy, R.Clean, R.CleanItems, AllCells, TreesOf;
    SliceTree(s);
    CleanOneMore(Tree(s).items, i);
    TidyParts(s);
    ghost var kid := s.kids[Index(i)];
    OmitIff(kid);
    if a[i] == Scalar(Omit) {
      return filtered, kids, {};
    }
    AllAllocated(kids);
    CellsAllocated(s);
    var cleaned;
    ghost var shape;
    cleaned, shape := CleanOmitSentinels(a[i], kid);
    more := Cells(shape) - Cells(kid);
    KeepOne(filtered, kids, cleaned, shape);
    values, kept := filtered + [cleaned], kids + [shape];
  }

  lemma TidyParts(s: Shape)
    requires Tidy(s) && s.Container? && s.at.SliceRef?
    ensures s.at.a in Cells(s)
    ensures forall i | 0 <= i < s.at.a.Length ::
              Index(i) in s.kids && Tidy(s.kids[Index(i)]) && s.at.a !in Cells(s.kids[Index(i)]) && Cells(s.kids[Index(i)]) <= Cells(s)
    ensures forall i, j | 0 <= i < j < s.at.a.Length :: Cells(s.kids[Index(i)]) !! Cells(s.kids[Index(j)])
  {
    CellsOf(s.at, s.kids);
    hide Tree, Cells;
    assert forall i | 0 <= i < s.at.a.Length :: Index(i) in s.kids;
  }

  /** The elements that are not omitted, cleaned, in a new array. */
  method CleanSlice(a: array<Value>, ghost s: Shape) returns (r: Value, ghost t: Shape, ghost more: set<object>)
    requires Tidy(s) && Held(s) && Val(s) == SliceRef(a)
    modifies Cells(s)
    ensures Val(t) == r && Tidy(t) && Held(t) && Tree(t) == R.Clean(Tree(s))
    ensures fresh(more) && Cells(t) <= Cells(s) + more
    decreases s, 1
  {
    hide Tree, Cells, Tidy, Held, AllTidy, R.CleanItems, AllCells, TreesOf, Kept, Untouched;
    var filtered: seq<Value> := [];
    ghost var kids: seq<Shape> := [];
    more := {};
    SliceStarts(s);
    for i := 0 to a.Length
      invariant Kept(filtered, kids) && Untouched(s, i, AllCells(kids)) && AllCells(kids) !! {a}
      invariant Tree(s).Arr? && |Tree(s).items| == a.Length && TreesOf(kids) == R.CleanItems(Tree(s).items[..i])
      invariant fresh(more) && AllCells(kids) <= Cells(s) + more
    {
      ghost var found;
      filtered, kids, found := CleanElement(a, i, filtered, kids, s);
      more := more + found;
      UntouchedArray(s, i + 1, AllCells(kids));
    }
    AllAllocated(kids);
    var b := new Value[|filtered|](i requires 0 <= i < |filtered| => filtered[i]);
    KeptTidy(filtered, kids);
    SliceOfOk(b, kids);
    SliceOfHeld(b, kids);
    assert Tree(s).items[..a.Length] == Tree(s).items;
    return SliceRef(b), SliceOf(b, kids), more + {b};
  }

  lemma SliceStarts(s: Shape)
    requires Tidy(s) && Held(s) && s.Container? && s.at.SliceRef?
    ensures Kept([], []) && Untouched(s, 0, AllCells([])) && AllCells([]) == {} && TreesOf([]) == []
    ensures Tree(s).Arr? && |Tree(s).items| == s.at.a.Length && R.CleanItems(Tree(s).items[..0]) == []
  {
    SliceTree(s);
    hide Tree, Cells;
    forall i | 0 <= i < s.at.a.Length ensures Index(i) in s.kids && s.at.a[i] == Val(s.kids[Index(i)]) {
      assert Index(i) in s.kids && EntryOf(s.at, Index(i)) == s.at.a[i];
    }
  }

  lemma UntouchedArray(s: Shape, i: nat, used: set<object>)
    requires Tidy(s) && s.Container? && s.at.SliceRef? && i <= s.at.a.Length && Untouched(s, i, used)
    ensures s.at.a !in used
  {
  }

  lemma KeptTidy(values: seq<Value>, kids: seq<Shape>)
    requires Kept(values, kids)
    ensures AllTidy(kids) && |values| == |kids| && forall j | 0 <= j < |kids| :: values[j] == Val(kids[j]) && Held(kids[j])
  {
  }
}
