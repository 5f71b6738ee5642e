/** From inspected expressions to dependencies: `extractDependencies` in `kro/graph/builder.go`. */
module References {
  import opened Trees
  import I = Inspector
  import W = World
  import A = Adequacy

  /** What is found in one expression; `refs` are the references that are recorded with it. */
  datatype Extracted = Extracted(deps: set<string>, iterators: set<string>, refs: set<string>)

  /** Every identifier that is seen is a known resource or a forEach variable, internal names aside. */
  ghost predicate AllKnown(env: I.Env, names: set<string>, e: I.Expr, iteratorVars: set<string>) {
    forall x | I.Seen(env, e, x) > 0 :: x in names || I.IsInternal(x) || x in iteratorVars
  }

  /** Fails exactly if an identifier is unknown. */
  method ExtractDependencies(env: I.Env, names: set<string>, e: I.Expr, iteratorVars: set<string>)
    returns (r: Option<Extracted>)
    ensures r.Some? <==> AllKnown(env, names, e, iteratorVars)
    ensures r.Some? ==>
              && (forall x :: x in r.value.refs <==> I.Seen(env, e, x) > 0 && (x in names || !I.IsInternal(x)))
              && r.value.deps == (r.value.refs * names) - {W.INSTANCE}
              && r.value.iterators == r.value.refs - names <= iteratorVars
  {
    hide I.Seen, I.NotCaptured, I.Free;
    var result := I.Inspect(env, names, e);
    assert forall x :: (x in result.resources <==> I.Seen(env, e, x) > 0 && x in names)
                       && (x in result.unknown <==> I.Seen(env, e, x) > 0 && x !in names && !I.IsInternal(x)) by {
      InReports(env, names, e, result);
    }
    var deps: set<string>, iterators: set<string> := {}, {};
    var found: set<string> := set x | x in result.resources;
    var refs := found;
    var todo := found;
    while todo != {}
      invariant todo <= found && deps == found - todo - {W.INSTANCE}
      decreases todo
    {
      var x :| x in todo;
      todo := todo - {x};
      if x != W.INSTANCE {
        deps := deps + {x};
      }
    }
    var unknown: set<string> := set x | x in result.unknown;
    todo := unknown;
    while todo != {}
      invariant todo <= unknown && iterators == unknown - todo <= iteratorVars && refs == found + iterators
      decreases todo
    {
      var x :| x in todo;
      todo := todo - {x};
      if x !in iteratorVars {
        assert x in result.unknown;
        return None;
      }
      iterators := iterators + {x};
      refs := refs + {x};
    }
    assert refs == found + unknown;
    return Some(Extracted(deps, iterators, refs));
  }

  lemma InReports(env: I.Env, names: set<string>, e: I.Expr, out: I.Inspection)
    requires I.Reports(out, names, {}, x => I.Seen(env, e, x))
    ensures forall x :: (x in out.resources <==> I.Seen(env, e, x) > 0 && x in names)
                        && (x in out.unknown <==> I.Seen(env, e, x) > 0 && x !in names && !I.IsInternal(x))
  {
    hide I.Seen;
    forall x ensures (x in out.resources <==> I.Seen(env, e, x) > 0 && x in names)
                     && (x in out.unknown <==> I.Seen(env, e, x) > 0 && x !in names && !I.IsInternal(x))
    {
      assert x in out.resources <==> out.resources[x] > 0;
      assert x in out.unknown <==> out.unknown[x] > 0;
    }
  }

  function Bound(c: W.Ctx): I.Ctx {
    map x | x in c :: I.Val(c[x])
  }

  /** How texts are parsed and evaluated, and how results are told apart as values and errors. */
  datatype Language = Language(env: I.Env, ops: I.Ops, parse: string -> I.Expr, judge: I.Res -> W.Eval)

  /** The oracle evaluates what is parsed. */
  ghost predicate Speaks(eval: W.Oracle, lang: Language) {
    forall o, c :: eval(o, c) == lang.judge(I.Eval(lang.env, lang.ops, lang.parse(o), Bound(c)))
  }

  /** No comprehension captures an identifier, and internal names do not occur free. */
  ghost predicate Clean(lang: Language, names: set<string>, text: string) {
    forall x | I.Free(lang.env, lang.parse(text), x) > 0 ::
      I.NotCaptured(lang.env, lang.parse(text), x) && (x in names || !I.IsInternal(x))
  }

  /** What is seen in the expression, internal names aside. */
  ghost predicate IsSeen(lang: Language, names: set<string>, text: string, x: string) {
    I.Seen(lang.env, lang.parse(text), x) > 0 && (x in names || !I.IsInternal(x))
  }

  /** The recorded references are those that are extracted. */
  ghost predicate Recorded(lang: Language, names: set<string>, e: W.Expr) {
    Clean(lang, names, e.original) && forall x :: x in e.refs <==> IsSeen(lang, names, e.original, x)
  }

  /** An expression reads nothing but what is seen in it. */
  lemma SeenIsRead(eval: W.Oracle, lang: Language, names: set<string>, text: string, ids: set<string>)
    requires Speaks(eval, lang) && Clean(lang, names, text)
    requires forall x | IsSeen(lang, names, text, x) :: x in ids
    ensures A.ReadsOnly(eval, text, ids)
  {
    hide I.Eval, I.Seen, I.Free, I.NotCaptured;
    var e := lang.parse(text);
    forall c ensures eval(text, c) == eval(text, W.OnlyThese(c, ids)) {
      var less := W.OnlyThese(c, ids);
      forall x | I.Free(lang.env, e, x) > 0 ensures I.Lookup(Bound(c), x) == I.Lookup(Bound(less), x) {
        I.SeenIsFreeIff(lang.env, e, x);
        assert IsSeen(lang, names, text, x);
      }
      I.EvalCoincides(lang.env, lang.ops, e, Bound(c), Bound(less));
    }
  }

  /** The references that are extracted are all that evaluation needs. */
  lemma RecordedReads(eval: W.Oracle, lang: Language, names: set<string>, e: W.Expr)
    requires Speaks(eval, lang) && Recorded(lang, names, e)
    ensures A.ReadsOnly(eval, e.original, e.refs)
  {
    SeenIsRead(eval, lang, names, e.original, e.refs);
  }
}
