/** Many writes at once: replacing the subtrees at unrelated paths, in whatever order. */
module Grafting {
  import opened Trees

  /** `t`, which stands at path `at`, with the subtree at each path of `f` replaced. */
  function Graft(t: Json, at: Path, f: map<Path, Json>): Json
    decreases t
  {
    if at in f then f[at]
    else match t
      case Arr(items) => Arr(seq(|items|, i requires 0 <= i < |items| => Graft(items[i], at + [Index(i)], f)))
      case Obj(fields) => Obj(map k | k in fields :: Graft(fields[k], at + [Field(k)], f))
      case _ => t
  }

  predicate AllUnrelated(f: map<Path, Json>, p: Path) {
    forall k | k in f :: Unrelated(k, p)
  }

  lemma {:induction false} GraftNothing(t: Json, at: Path)
    ensures Graft(t, at, map[]) == t
    decreases t
  {
    match t
    case Arr(items) =>
      forall i | 0 <= i < |items| ensures Graft(items[i], at + [Index(i)], map[]) == items[i] {
        GraftNothing(items[i], at + [Index(i)]);
      }
    case Obj(fields) =>
      forall k | k in fields ensures Graft(fields[k], at + [Field(k)], map[]) == fields[k] {
        GraftNothing(fields[k], at + [Field(k)]);
      }
    case _ =>
  }

  /** Paths that do not pass through `at` do not matter for what stands there. */
  lemma {:induction false} GraftElsewhere(t: Json, at: Path, f: map<Path, Json>, p: Path, v: Json)
    requires !(at <= p)
    ensures Graft(t, at, f[p := v]) == Graft(t, at, f)
    decreases t
  {
    match t
    case Arr(items) =>
      forall i | 0 <= i < |items| ensures Graft(items[i], at + [Index(i)], f[p := v]) == Graft(items[i], at + [Index(i)], f) {
        assert at <= at + [Index(i)];
        GraftElsewhere(items[i], at + [Index(i)], f, p, v);
      }
    case Obj(fields) =>
      forall k | k in fields ensures Graft(fields[k], at + [Field(k)], f[p := v]) == Graft(fields[k], at + [Field(k)], f) {
        assert at <= at + [Field(k)];
        GraftElsewhere(fields[k], at + [Field(k)], f, p, v);
      }
    case _ =>
  }

  /** Grafting keeps the shape around the grafted subtrees. */
  lemma GraftStep(t: Json, at: Path, f: map<Path, Json>, seg: Segment)
    requires at !in f && Matches(t, seg)
    ensures Matches(Graft(t, at, f), seg) && (Present(Graft(t, at, f), seg) <==> Present(t, seg))
    ensures Present(t, seg) ==> At(Graft(t, at, f), seg) == Graft(At(t, seg), at + [seg], f)
  {
  }

  lemma {:induction false} GraftKeepsPath(t: Json, at: Path, f: map<Path, Json>, p: Path)
    requires AllUnrelated(f, at + p)
    ensures Get(Graft(t, at, f), p).Some? <==> Get(t, p).Some?
    decreases |p|
  {
    if p != [] {
      assert at <= at + p;
      if Matches(t, p[0]) {
        GraftStep(t, at, f, p[0]);
        if Present(t, p[0]) {
          assert at + [p[0]] + p[1..] == at + p;
          GraftKeepsPath(At(t, p[0]), at + [p[0]], f, p[1..]);
        }
      }
    }
  }

  /** Writing at a path that exists and is unrelated to the paths grafted so far grafts one more. */
  lemma {:induction false} GraftPut(t: Json, at: Path, f: map<Path, Json>, p: Path, v: Json)
    requires p != [] && Get(t, p).Some? && AllUnrelated(f, at + p)
    ensures Put(Graft(t, at, f), p, v) == Written(Graft(t, at, f[at + p := v]), true)
    decreases |p|
  {
    hide Graft, AllUnrelated;
    var child := at + [p[0]];
    NotGrafted(at, f, p);
    GraftStep(t, at, f, p[0]);
    GraftOneChild(t, at, f, p, v);
    assert child + p[1..] == at + p;
    if |p| == 1 {
      assert child == at + p;
      GraftHere(At(t, p[0]), child, f, v);
    } else {
      GraftPut(At(t, p[0]), child, f, p[1..], v);
      NotGrafted(child, f, p[1..]);
      GraftStep(At(t, p[0]), child, f, p[1]);
    }
  }

  lemma NotGrafted(at: Path, f: map<Path, Json>, p: Path)
    requires AllUnrelated(f, at + p)
    ensures at !in f
  {
    assert at <= at + p;
  }

  lemma GraftHere(t: Json, at: Path, f: map<Path, Json>, v: Json)
    ensures Graft(t, at, f[at := v]) == v
  {
  }

  /** One more graft below a member changes that member only. */
  lemma GraftOneChild(t: Json, at: Path, f: map<Path, Json>, p: Path, v: Json)
    requires p != [] && at !in f && Present(t, p[0])
    ensures var f' := f[at + p := v];
            && Matches(Graft(t, at, f), p[0])
            && With(Graft(t, at, f), p[0], Graft(At(t, p[0]), at + [p[0]], f')) == Graft(t, at, f')
  {
    var f' := f[at + p := v];
    assert at != at + p;
    GraftStep(t, at, f, p[0]);
    GraftStep(t, at, f', p[0]);
    GraftSiblings(t, at, f, p, v);
    var a, b := Graft(t, at, f), Graft(t, at, f');
    forall s ensures Present(a, s) <==> Present(b, s)
      ensures s != p[0] && Present(a, s) ==> At(b, s) == At(a, s)
    {
      if Matches(t, s) {
        GraftStep(t, at, f, s);
        GraftStep(t, at, f', s);
      }
    }
    hide Graft;
    SameContainer(a, b, p[0], At(b, p[0]));
  }

  lemma GraftSiblings(t: Json, at: Path, f: map<Path, Json>, p: Path, v: Json)
    requires p != [] && at !in f && Matches(t, p[0])
    ensures forall seg | seg != p[0] && Present(t, seg) ::
              Graft(At(t, seg), at + [seg], f[at + p := v]) == Graft(At(t, seg), at + [seg], f)
  {
    forall seg | seg != p[0] && Present(t, seg)
      ensures Graft(At(t, seg), at + [seg], f[at + p := v]) == Graft(At(t, seg), at + [seg], f)
    {
      assert (at + [seg])[|at|] == seg && (at + p)[|at|] == p[0];
      GraftElsewhere(At(t, seg), at + [seg], f, at + p, v);
    }
  }

  /** Two containers with the same members but for one. */
  lemma SameContainer(a: Json, b: Json, seg: Segment, c: Json)
    requires Present(a, seg) && Matches(b, seg)
    requires forall s :: Present(a, s) <==> Present(b, s)
    requires forall s | s != seg && Present(a, s) :: At(b, s) == At(a, s)
    requires At(b, seg) == c
    ensures With(a, seg, c) == b
  {
    if seg.Index? {
      assert Present(a, Index(|a.items|)) <==> Present(b, Index(|a.items|));
      assert Present(a, Index(|b.items|)) <==> Present(b, Index(|b.items|));
      forall i | 0 <= i < |a.items| && i != seg.i ensures b.items[i] == a.items[i] {
        assert At(b, Index(i)) == At(a, Index(i));
      }
    } else {
      forall k ensures k in a.fields <==> k in b.fields {
        assert Present(a, Field(k)) <==> Present(b, Field(k));
      }
      forall k | k in a.fields && k != seg.name ensures b.fields[k] == a.fields[k] {
        assert At(b, Field(k)) == At(a, Field(k));
      }
    }
  }
}
