/** Unstructured objects as trees, paths into them, and writing one value at a path. */
module Trees {

  datatype Option<+T> = None | Some(value: T)

  /** A JSON-like value; `Omit` is the sentinel that the `omit()` function returns. */
  datatype Json =
    | Null
    | Omit
    | Bool(b: bool)
    | Num(n: int)
    | Str(s: string)
    | Arr(items: seq<Json>)
    | Obj(fields: map<string, Json>)

  /** One step of a path. The source's segments with a negative index are steps to a field. */
  datatype Segment = Field(name: string) | Index(i: nat)

  type Path = seq<Segment>

  /** `t` is the kind of container that `seg` selects from. */
  predicate Matches(t: Json, seg: Segment) {
    if seg.Index? then t.Arr? else t.Obj?
  }

  predicate Present(t: Json, seg: Segment) {
    Matches(t, seg) && if seg.Index? then seg.i < |t.items| else seg.name in t.fields
  }

  /** What `seg` selects; null where there is nothing. */
  function At(t: Json, seg: Segment): Json
    requires Matches(t, seg)
  {
    if !Present(t, seg) then Null
    else if seg.Index? then t.items[seg.i] else t.fields[seg.name]
  }

  function Padded(items: seq<Json>, n: nat): (r: seq<Json>)
    ensures |r| == if n <= |items| then |items| else n
    ensures forall k | 0 <= k < |r| :: r[k] == if k < |items| then items[k] else Null
  {
    if n <= |items| then items else items + seq(n - |items|, _ => Null)
  }

  /** `t` with `c` where `seg` points; an array that is too short is filled up with nulls. */
  function With(t: Json, seg: Segment, c: Json): Json
    requires Matches(t, seg)
  {
    if seg.Index? then Arr(Padded(t.items, seg.i + 1)[seg.i := c]) else Obj(t.fields[seg.name := c])
  }

  function Get(t: Json, p: Path): Option<Json> {
    if p == [] then Some(t)
    else if Present(t, p[0]) then Get(At(t, p[0]), p[1..])
    else None
  }

  /** An empty container for `next` to select from. */
  function NewContainer(next: Segment): Json {
    if next.Index? then Arr([]) else Obj(map[])
  }

  /** The container that the walk continues in. */
  function Next(t: Json, seg: Segment, next: Segment): Json
    requires Matches(t, seg)
  {
    if At(t, seg) == Null then NewContainer(next) else At(t, seg)
  }

  /** The tree as the walk leaves it, whether or not it could be finished. */
  datatype Written = Written(tree: Json, ok: bool)

  function Put(t: Json, p: Path, v: Json): Written
    decreases |p|
  {
    if p == [] then Written(t, true)
    else if !Matches(t, p[0]) then Written(t, false)
    else if |p| == 1 then Written(With(t, p[0], v), true)
    else
      var w := Put(Next(t, p[0], p[1]), p[1..], v);
      Written(With(t, p[0], w.tree), w.ok)
  }

  /** No container on the way is of the wrong kind; what is missing or null does not matter. */
  predicate Fits(t: Json, p: Path) {
    forall k {:trigger p[..k]} | 0 <= k < |p| ::
      var g := Get(t, p[..k]);
      g.None? || (k > 0 && g.value == Null) || Matches(g.value, p[k])
  }

  predicate Unrelated(p: Path, q: Path) {
    !(p <= q) && !(q <= p)
  }

  lemma WithAt(t: Json, seg: Segment, c: Json)
    requires Matches(t, seg)
    ensures Present(With(t, seg, c), seg) && At(With(t, seg, c), seg) == c
    ensures Present(t, seg) ==> With(t, seg, At(t, seg)) == t
    ensures forall other | other != seg && Present(t, other) ::
              Present(With(t, seg, c), other) && At(With(t, seg, c), other) == At(t, other)
    ensures forall other | other != seg && Present(With(t, seg, c), other) :: At(With(t, seg, c), other) ==
              if Present(t, other) then At(t, other) else Null
  {
  }

  /** The value is read back at the path it was written to. */
  lemma {:induction false} PutGet(t: Json, p: Path, v: Json)
    requires Put(t, p, v).ok && p != []
    ensures Get(Put(t, p, v).tree, p) == Some(v)
    decreases |p|
  {
    if |p| == 1 {
      WithAt(t, p[0], v);
    } else {
      PutGet(Next(t, p[0], p[1]), p[1..], v);
      WithAt(t, p[0], Put(Next(t, p[0], p[1]), p[1..], v).tree);
    }
  }

  /** A write that cannot be finished has changed nothing. */
  lemma {:induction false} PutFailsUnchanged(t: Json, p: Path, v: Json)
    requires !Put(t, p, v).ok
    ensures Put(t, p, v).tree == t
    decreases |p|
  {
    if Matches(t, p[0]) {
      if At(t, p[0]) == Null {
        PutIntoNew(p[1..], v);
      } else {
        PutFailsUnchanged(At(t, p[0]), p[1..], v);
        WithAt(t, p[0], v);
      }
    }
  }

  /** Nothing stops the walk once it is inside a container that it made. */
  lemma {:induction false} PutIntoNew(p: Path, v: Json)
    requires p != []
    ensures Put(NewContainer(p[0]), p, v).ok
  {
    if |p| > 1 {
      PutIntoNew(p[1..], v);
    }
  }

  lemma NextAt(t: Json, seg: Segment, next: Segment, q: Path)
    requires Present(t, seg)
    ensures q != [] && Get(At(t, seg), q).Some? ==> Get(Next(t, seg, next), q) == Get(At(t, seg), q)
  {
  }

  /** Whatever could be read off the path before reads the same afterwards. */
  lemma {:induction false} PutFrame(t: Json, p: Path, v: Json, q: Path)
    requires Unrelated(p, q) && Get(t, q).Some?
    ensures Get(Put(t, p, v).tree, q) == Get(t, q)
    decreases |p|
  {
    if Matches(t, p[0]) && |p| > 1 {
      WithAt(t, p[0], Put(Next(t, p[0], p[1]), p[1..], v).tree);
      if p[0] == q[0] {
        NextAt(t, p[0], p[1], q[1..]);
        PutFrame(Next(t, p[0], p[1]), p[1..], v, q[1..]);
      }
    } else if Matches(t, p[0]) {
      WithAt(t, p[0], v);
    }
  }

  /** `q` reads a null that fills a gap of an array. */
  predicate IsGap(t: Json, q: Path) {
    Get(t, q) == Some(Null) && q != [] && q[|q| - 1].Index?
  }

  /** What can be read off the path afterwards was there before, or is a null that fills a gap of an array. */
  lemma {:induction false} PutAddsOnlyGaps(t: Json, p: Path, v: Json, q: Path)
    requires Unrelated(p, q) && Get(Put(t, p, v).tree, q).Some?
    ensures Get(Put(t, p, v).tree, q) == Get(t, q) || IsGap(Put(t, p, v).tree, q)
    decreases |p|
  {
    hide With;
    if Matches(t, p[0]) && |p| > 1 {
      var c := Put(Next(t, p[0], p[1]), p[1..], v).tree;
      WithAt(t, p[0], c);
      if p[0] == q[0] {
        PutAddsOnlyGaps(Next(t, p[0], p[1]), p[1..], v, q[1..]);
      } else {
        BesideOnlyGaps(t, p[0], c, q);
      }
    } else if Matches(t, p[0]) {
      BesideOnlyGaps(t, p[0], v, q);
    }
  }

  lemma BesideOnlyGaps(t: Json, seg: Segment, c: Json, q: Path)
    requires Matches(t, seg) && q != [] && q[0] != seg && Get(With(t, seg, c), q).Some?
    ensures Get(With(t, seg, c), q) == Get(t, q) || IsGap(With(t, seg, c), q)
  {
    NullHasNoParts(q[1..]);
    WithAt(t, seg, c);
  }

  lemma NullHasNoParts(q: Path)
    ensures Get(Null, q).Some? ==> q == []
  {
  }

  /** On the way to the value stand containers of the kind that the path asks for. */
  lemma {:induction false} PutBuildsWay(t: Json, p: Path, v: Json, k: nat)
    requires Put(t, p, v).ok && k < |p|
    ensures Get(Put(t, p, v).tree, p[..k]).Some? && Matches(Get(Put(t, p, v).tree, p[..k]).value, p[k])
    decreases |p|
  {
    if k > 0 {
      WithAt(t, p[0], Put(Next(t, p[0], p[1]), p[1..], v).tree);
      PutBuildsWay(Next(t, p[0], p[1]), p[1..], v, k - 1);
      assert p[..k][1..] == p[1..][..k - 1];
    }
  }

  /** The write succeeds exactly when no container on the way is of the wrong kind. */
  lemma {:induction false} PutOkIff(t: Json, p: Path, v: Json)
    ensures Put(t, p, v).ok <==> Fits(t, p)
    decreases |p|
  {
    if p == [] {
    } else if !Matches(t, p[0]) {
      assert p[..0] == [];
    } else if |p| > 1 {
      var n := Next(t, p[0], p[1]);
      PutOkIff(n, p[1..], v);
      forall k | 0 < k < |p| ensures Get(t, p[..k]) == if Present(t, p[0]) then Get(At(t, p[0]), p[1..][..k - 1]) else None {
        assert p[..k][1..] == p[1..][..k - 1];
      }
      if At(t, p[0]) == Null {
        PutIntoNew(p[1..], v);
        forall k | 0 <= k < |p|
          ensures Get(t, p[..k]).None? || (k > 0 && Get(t, p[..k]).value == Null) || Matches(Get(t, p[..k]).value, p[k])
        {
          if k > 0 {
            NullHasNoParts(p[1..][..k - 1]);
          }
        }
      } else {
        FitsStep(t, p);
      }
    }
  }

  lemma FitsStep(t: Json, p: Path)
    requires |p| > 1 && Matches(t, p[0]) && At(t, p[0]) != Null
    ensures Fits(t, p) <==> Fits(At(t, p[0]), p[1..])
  {
    forall k | 0 < k < |p| ensures Get(t, p[..k]) == Get(At(t, p[0]), p[1..][..k - 1]) {
      assert p[..k][1..] == p[1..][..k - 1];
    }
    if Fits(t, p) {
      forall k | 0 <= k < |p[1..]|
        ensures var g := Get(At(t, p[0]), p[1..][..k]);
                g.None? || (k > 0 && g.value == Null) || Matches(g.value, p[1..][k])
      {
        assert p[..k + 1] == p[..k + 1];
      }
    }
    if Fits(At(t, p[0]), p[1..]) {
      forall k | 0 <= k < |p|
        ensures var g := Get(t, p[..k]); g.None? || (k > 0 && g.value == Null) || Matches(g.value, p[k])
      {
        if k > 0 {
          assert p[1..][..k - 1] == p[1..][..k - 1];
        }
      }
    }
  }
}
