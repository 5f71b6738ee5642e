/** Finding the identifiers that an expression depends on: `kro/cel/ast/inspector.go`. */
module Inspector {
  import opened Trees

  /** A parsed CEL expression. */
  datatype Expr =
    | Ident(name: string)
    | Literal(text: string)
    | Select(operand: Expr, field: string)
    | Call(fn: string, target: Option<Expr>, args: seq<Expr>)
    | Aggregate(children: seq<Expr>)
    | Comprehension(iterVar: string, iterVar2: Option<string>, accuVar: string,
                    range: Expr, init: Expr, cond: Expr, step: Expr, result: Expr)

  /** The registered functions, and how expressions are printed to compare targets with their names. */
  datatype Env = Env(functions: set<string>, printed: Expr -> string)

  /** `target.fn(...)` is a call of a registered function whose name has a dot. */
  predicate Namespaced(env: Env, target: Expr, fn: string) {
    env.printed(target) + "." + fn in env.functions
  }

  function LoopVars(e: Expr): set<string>
    requires e.Comprehension?
  {
    {e.iterVar, e.accuVar} + if e.iterVar2.Some? then {e.iterVar2.value} else {}
  }

  // ---- Scoping in CEL. ----

  /** How often `x` occurs free: loop variables bind in condition and step, the accumulator also in the result. */
  function Free(env: Env, e: Expr, x: string): nat
    decreases e, 1
  {
    match e
    case Ident(name) => if name == x then 1 else 0
    case Literal(_) => 0
    case Select(operand, _) => Free(env, operand, x)
    case Call(fn, target, args) =>
      FreeIn(env, args, x) +
      if target.Some? && !Namespaced(env, target.value, fn) then Free(env, target.value, x) else 0
    case Aggregate(children) => FreeIn(env, children, x)
    case Comprehension(_, _, accuVar, range, init, cond, step, result) =>
      Free(env, init, x) + Free(env, range, x)
      + (if x in LoopVars(e) then 0 else Free(env, cond, x) + Free(env, step, x))
      + (if x == accuVar then 0 else Free(env, result, x))
  }

  function FreeIn(env: Env, es: seq<Expr>, x: string): nat
    decreases es, 0
  {
    if es == [] then 0 else Free(env, es[0], x) + FreeIn(env, es[1..], x)
  }

  // ---- Scoping as the inspector sees it. ----

  /** How often `x` is looked up outside the comprehensions that have a loop variable of that name. */
  function Seen(env: Env, e: Expr, x: string): nat
    decreases e, 1
  {
    match e
    case Ident(name) => if name == x then 1 else 0
    case Literal(_) => 0
    case Select(operand, _) => Seen(env, operand, x)
    case Call(fn, target, args) =>
      SeenIn(env, args, x) +
      if target.Some? && !Namespaced(env, target.value, fn) then Seen(env, target.value, x) else 0
    case Aggregate(children) => SeenIn(env, children, x)
    case Comprehension(_, _, _, range, init, cond, step, result) =>
      if x in LoopVars(e) then 0
      else Seen(env, init, x) + Seen(env, range, x) + Seen(env, cond, x) + Seen(env, step, x) + Seen(env, result, x)
  }

  function SeenIn(env: Env, es: seq<Expr>, x: string): nat
    decreases es, 0
  {
    if es == [] then 0 else Seen(env, es[0], x) + SeenIn(env, es[1..], x)
  }

  lemma {:induction false} SeenInAppend(env: Env, es: seq<Expr>, e: Expr, x: string)
    ensures SeenIn(env, es + [e], x) == SeenIn(env, es, x) + Seen(env, e, x)
  {
    if es == [] {
      assert es + [e] == [e];
    } else {
      assert (es + [e])[1..] == es[1..] + [e];
      SeenInAppend(env, es[1..], e, x);
    }
  }

  predicate IsInternal(name: string) {
    name == "@result" || "$$" <= name || "@__" <= name
  }

  /** Identifiers of known resources and other identifiers, once for every occurrence that was found. */
  datatype Inspection = Inspection(resources: multiset<string>, unknown: multiset<string>) {
    function Merge(other: Inspection): Inspection {
      Inspection(resources + other.resources, unknown + other.unknown)
    }
  }

  /** What an inspection with `scope` in scope reports of identifiers that occur `count` times. */
  ghost predicate Reports(out: Inspection, resources: set<string>, scope: set<string>, count: string -> nat) {
    forall x ::
      && out.resources[x] == (if x in scope || x !in resources then 0 else count(x))
      && out.unknown[x] == (if x in scope || x in resources || IsInternal(x) then 0 else count(x))
  }

  /** Leaving a comprehension: what was found in its scope is what it contributes outside. */
  lemma LeaveScope(env: Env, out: Inspection, resources: set<string>, scope: set<string>, e: Expr)
    requires e.Comprehension?
    requires Reports(out, resources, scope + LoopVars(e), x =>
               Seen(env, e.init, x) + Seen(env, e.range, x) + Seen(env, e.cond, x) + Seen(env, e.step, x) + Seen(env, e.result, x))
    ensures Reports(out, resources, scope, x => Seen(env, e, x))
  {
  }

  class Inspector {
    const env: Env
    const resources: set<string>
    var loopVars: set<string>

    constructor (env: Env, resources: set<string>)
      ensures this.env == env && this.resources == resources && loopVars == {}
    {
      this.env, this.resources, loopVars := env, resources, {};
    }

    method InspectIdent(name: string) returns (out: Inspection)
      ensures Reports(out, resources, loopVars, x => if x == name then 1 else 0)
      ensures out.resources == if name !in loopVars && name in resources then multiset{name} else multiset{}
      ensures out.unknown == if name in loopVars || name in resources || name == "@result" || "$$" <= name || "@__" <= name
                             then multiset{} else multiset{name}
    {
      if name in loopVars {
        return Inspection(multiset{}, multiset{});
      }
      if name in resources {
        return Inspection(multiset{name}, multiset{});
      }
      if !IsInternal(name) {
        return Inspection(multiset{}, multiset{name});
      }
      return Inspection(multiset{}, multiset{});
    }

    method InspectAll(es: seq<Expr>) returns (out: Inspection)
      modifies this`loopVars
      ensures loopVars == old(loopVars)
      ensures Reports(out, resources, loopVars, x => SeenIn(env, es, x))
      decreases es, 0
    {
      out := Inspection(multiset{}, multiset{});
      for i := 0 to |es|
        invariant loopVars == old(loopVars)
        invariant Reports(out, resources, loopVars, x => SeenIn(env, es[..i], x))
      {
        var more := InspectExpr(es[i]);
        out := out.Merge(more);
        assert es[..i + 1] == es[..i] + [es[i]];
        forall x ensures SeenIn(env, es[..i + 1], x) == SeenIn(env, es[..i], x) + Seen(env, es[i], x) {
          SeenInAppend(env, es[..i], es[i], x);
        }
      }
      assert es[..|es|] == es;
    }

    method InspectExpr(e: Expr) returns (out: Inspection)
      modifies this`loopVars
      ensures loopVars == old(loopVars)
      ensures Reports(out, resources, loopVars, x => Seen(env, e, x))
      decreases e, 1
    {
      match e {
        case Ident(name) =>
          out := InspectIdent(name);
        case Literal(_) =>
          out := Inspection(multiset{}, multiset{});
        case Select(operand, _) =>
          out := InspectExpr(operand);
        case Call(fn, target, args) =>
          out := InspectAll(args);
          if target.Some? && !Namespaced(env, target.value, fn) {
            var more := InspectExpr(target.value);
            out := out.Merge(more);
          }
        case Aggregate(children) =>
          out := InspectAll(children);
        case Comprehension(_, _, _, _, _, _, _, _) =>
          out := InspectComprehension(e);
      }
    }

    /** Inspects all parts of a comprehension in the present scope. */
    method InspectParts(e: Expr) returns (out: Inspection)
      requires e.Comprehension?
      modifies this`loopVars
      ensures loopVars == old(loopVars)
      ensures Reports(out, resources, loopVars, x =>
                Seen(env, e.init, x) + Seen(env, e.range, x) + Seen(env, e.cond, x) + Seen(env, e.step, x) + Seen(env, e.result, x))
      decreases e, 0, 0
    {
      out := InspectExpr(e.init);
      var range := InspectExpr(e.range);
      out := out.Merge(range);
      var cond := InspectExpr(e.cond);
      out := out.Merge(cond);
      var step := InspectExpr(e.step);
      out := out.Merge(step);
      var result := InspectExpr(e.result);
      out := out.Merge(result);
    }

    /** Brings the loop variables into scope, for all parts alike, and takes out those that were not there before. */
    method InspectComprehension(e: Expr) returns (out: Inspection)
      requires e.Comprehension?
      modifies this`loopVars
      ensures loopVars == old(loopVars)
      ensures Reports(out, resources, loopVars, x => Seen(env, e, x))
      decreases e, 0, 1
    {
      hide Reports, Seen;
      var iterVarWasSet := e.iterVar in loopVars;
      loopVars := loopVars + {e.iterVar};
      var iterVar2WasSet := true;
      if e.iterVar2.Some? {
        iterVar2WasSet := e.iterVar2.value in loopVars;
        loopVars := loopVars + {e.iterVar2.value};
      }
      var accuVarWasSet := e.accuVar in loopVars;
      loopVars := loopVars + {e.accuVar};
      assert loopVars == old(loopVars) + LoopVars(e);

      out := InspectParts(e);
      LeaveScope(env, out, resources, old(loopVars), e);

      if !accuVarWasSet {
        loopVars := loopVars - {e.accuVar};
      }
      if !iterVar2WasSet {
        loopVars := loopVars - {e.iterVar2.value};
      }
      if !iterVarWasSet {
        loopVars := loopVars - {e.iterVar};
      }
    }
  }

  // ---- What is missed. ----

  /** No comprehension with a loop variable `x` has an occurrence of `x` that this variable does not bind. */
  predicate NotCaptured(env: Env, e: Expr, x: string)
    decreases e, 1
  {
    match e
    case Ident(_) => true
    case Literal(_) => true
    case Select(operand, _) => NotCaptured(env, operand, x)
    case Call(fn, target, args) =>
      NotCapturedIn(env, args, x) && (target.Some? && !Namespaced(env, target.value, fn) ==> NotCaptured(env, target.value, x))
    case Aggregate(children) => NotCapturedIn(env, children, x)
    case Comprehension(_, _, accuVar, range, init, cond, step, result) =>
      if x in LoopVars(e) then
        Free(env, init, x) == 0 && Free(env, range, x) == 0 && (x != accuVar ==> Free(env, result, x) == 0)
      else
        && NotCaptured(env, init, x) && NotCaptured(env, range, x)
        && NotCaptured(env, cond, x) && NotCaptured(env, step, x) && NotCaptured(env, result, x)
  }

  predicate NotCapturedIn(env: Env, es: seq<Expr>, x: string)
    decreases es, 0
  {
    es == [] || (NotCaptured(env, es[0], x) && NotCapturedIn(env, es[1..], x))
  }

  /** Never more than the free occurrences of an identifier are reported, and all of them iff none is captured. */
  lemma {:induction false} SeenIsFreeIff(env: Env, e: Expr, x: string)
    ensures Seen(env, e, x) <= Free(env, e, x)
    ensures Seen(env, e, x) == Free(env, e, x) <==> NotCaptured(env, e, x)
    decreases e, 1
  {
    match e {
      case Ident(_) =>
      case Literal(_) =>
      case Select(operand, _) =>
        SeenIsFreeIff(env, operand, x);
      case Call(fn, target, args) =>
        SeenInIsFreeIff(env, args, x);
        if target.Some? {
          SeenIsFreeIff(env, target.value, x);
        }
      case Aggregate(children) =>
        SeenInIsFreeIff(env, children, x);
      case Comprehension(_, _, _, range, init, cond, step, result) =>
        SeenIsFreeIff(env, range, x);
        SeenIsFreeIff(env, init, x);
        SeenIsFreeIff(env, cond, x);
        SeenIsFreeIff(env, step, x);
        SeenIsFreeIff(env, result, x);
    }
  }

  lemma {:induction false} SeenInIsFreeIff(env: Env, es: seq<Expr>, x: string)
    ensures SeenIn(env, es, x) <= FreeIn(env, es, x)
    ensures SeenIn(env, es, x) == FreeIn(env, es, x) <==> NotCapturedIn(env, es, x)
    decreases es, 0
  {
    if es != [] {
      SeenIsFreeIff(env, es[0], x);
      SeenInIsFreeIff(env, es[1..], x);
    }
  }

  /** `vpc.filter(vpc, vpc)` depends on `vpc`, which is not reported. */
  lemma CaptureHappens(env: Env)
    ensures var v := Ident("vpc");
            var e := Comprehension("vpc", None, "@result", v, Aggregate([]), Literal("true"), v, Ident("@result"));
            Free(env, e, "vpc") == 1 && Seen(env, e, "vpc") == 0
  {
    var v := Ident("vpc");
    var e := Comprehension("vpc", None, "@result", v, Aggregate([]), Literal("true"), v, Ident("@result"));
    assert "vpc" in LoopVars(e) && "vpc" != "@result";
    assert Free(env, v, "vpc") == 1 && Free(env, Aggregate([]), "vpc") == 0 && Free(env, Ident("@result"), "vpc") == 0;
  }

  /** The target of a registered function that has a dot in its name is part of the name; any other target is looked at. */
  lemma TargetsSeen(env: Env, target: Expr, fn: string, x: string)
    ensures Seen(env, Call(fn, Some(target), []), x) == if env.printed(target) + "." + fn in env.functions then 0 else Seen(env, target, x)
  {
  }

  // ---- Evaluation needs the free identifiers only. ----

  datatype Res = Val(value: Json) | Fail(code: int)

  type Ctx = map<string, Res>

  /** The operations of the language; calls see failed arguments too, as `&&` and `||` do. */
  datatype Ops = Ops(literal: string -> Res, select: (Res, string) -> Res, call: (string, seq<Res>) -> Res,
                     build: seq<Res> -> Res, elements: Res -> Option<seq<(Res, Res)>>, stops: Res -> bool)

  const NO_SUCH_ATTRIBUTE := 0

  function Lookup(ctx: Ctx, x: string): Res {
    if x in ctx then ctx[x] else Fail(NO_SUCH_ATTRIBUTE)
  }

  function Eval(env: Env, ops: Ops, e: Expr, ctx: Ctx): Res
    decreases e, 2
  {
    match e
    case Ident(name) => Lookup(ctx, name)
    case Literal(text) => ops.literal(text)
    case Select(operand, field) => ops.select(Eval(env, ops, operand, ctx), field)
    case Call(fn, target, args) =>
      var values := EvalAll(env, ops, args, ctx);
      if target.None? then ops.call(fn, values)
      else if Namespaced(env, target.value, fn) then ops.call(env.printed(target.value) + "." + fn, values)
      else ops.call(fn, [Eval(env, ops, target.value, ctx)] + values)
    case Aggregate(children) => ops.build(EvalAll(env, ops, children, ctx))
    case Comprehension(_, _, accuVar, range, init, _, _, result) =>
      var over := Eval(env, ops, range, ctx);
      if ops.elements(over).None? then over
      else
        var accu := Loop(env, ops, e, ops.elements(over).value, ctx, Eval(env, ops, init, ctx));
        Eval(env, ops, result, ctx[accuVar := accu])
  }

  function EvalAll(env: Env, ops: Ops, es: seq<Expr>, ctx: Ctx): seq<Res>
    decreases es, 0
  {
    if es == [] then [] else [Eval(env, ops, es[0], ctx)] + EvalAll(env, ops, es[1..], ctx)
  }

  /** The context of condition and step. */
  function Inner(e: Expr, ctx: Ctx, element: (Res, Res), accu: Res): Ctx
    requires e.Comprehension?
  {
    var one := ctx[e.iterVar := element.0];
    var two := if e.iterVar2.Some? then one[e.iterVar2.value := element.1] else one;
    two[e.accuVar := accu]
  }

  function Loop(env: Env, ops: Ops, e: Expr, elements: seq<(Res, Res)>, ctx: Ctx, accu: Res): Res
    requires e.Comprehension?
    decreases e, 1, |elements|
  {
    if elements == [] then accu
    else
      var inner := Inner(e, ctx, elements[0], accu);
      if ops.stops(Eval(env, ops, e.cond, inner)) then accu
      else Loop(env, ops, e, elements[1..], ctx, Eval(env, ops, e.step, inner))
  }

  ghost predicate Agree(env: Env, e: Expr, c: Ctx, d: Ctx) {
    forall x | Free(env, e, x) > 0 :: Lookup(c, x) == Lookup(d, x)
  }

  ghost predicate AgreeIn(env: Env, es: seq<Expr>, c: Ctx, d: Ctx) {
    forall x | FreeIn(env, es, x) > 0 :: Lookup(c, x) == Lookup(d, x)
  }

  /** Contexts that agree on the free identifiers give the same result. */
  lemma {:induction false} EvalCoincides(env: Env, ops: Ops, e: Expr, c: Ctx, d: Ctx)
    requires Agree(env, e, c, d)
    ensures Eval(env, ops, e, c) == Eval(env, ops, e, d)
    decreases e, 2
  {
    match e {
      case Ident(name) =>
        assert Free(env, e, name) > 0;
      case Literal(_) =>
      case Select(operand, _) =>
        EvalCoincides(env, ops, operand, c, d);
      case Call(fn, target, args) =>
        EvalAllCoincides(env, ops, args, c, d);
        if target.Some? && !Namespaced(env, target.value, fn) {
          EvalCoincides(env, ops, target.value, c, d);
        }
      case Aggregate(children) =>
        EvalAllCoincides(env, ops, children, c, d);
      case Comprehension(_, _, accuVar, range, init, _, _, result) =>
        EvalCoincides(env, ops, range, c, d);
        EvalCoincides(env, ops, init, c, d);
        var over := Eval(env, ops, range, c);
        if ops.elements(over).Some? {
          LoopCoincides(env, ops, e, ops.elements(over).value, c, d, Eval(env, ops, init, c));
          var accu := Loop(env, ops, e, ops.elements(over).value, c, Eval(env, ops, init, c));
          EvalCoincides(env, ops, result, c[accuVar := accu], d[accuVar := accu]);
        }
    }
  }

  lemma {:induction false} EvalAllCoincides(env: Env, ops: Ops, es: seq<Expr>, c: Ctx, d: Ctx)
    requires AgreeIn(env, es, c, d)
    ensures EvalAll(env, ops, es, c) == EvalAll(env, ops, es, d)
    decreases es, 0
  {
    if es != [] {
      EvalCoincides(env, ops, es[0], c, d);
      EvalAllCoincides(env, ops, es[1..], c, d);
    }
  }

  lemma {:induction false} LoopCoincides(env: Env, ops: Ops, e: Expr, elements: seq<(Res, Res)>, c: Ctx, d: Ctx, accu: Res)
    requires e.Comprehension? && Agree(env, e, c, d)
    ensures Loop(env, ops, e, elements, c, accu) == Loop(env, ops, e, elements, d, accu)
    decreases e, 1, |elements|
  {
    if elements != [] {
      var ci, di := Inner(e, c, elements[0], accu), Inner(e, d, elements[0], accu);
      InnerAgree(env, e, c, d, elements[0], accu);
      EvalCoincides(env, ops, e.cond, ci, di);
      EvalCoincides(env, ops, e.step, ci, di);
      LoopCoincides(env, ops, e, elements[1..], c, d, Eval(env, ops, e.step, ci));
    }
  }

  lemma InnerAgree(env: Env, e: Expr, c: Ctx, d: Ctx, element: (Res, Res), accu: Res)
    requires e.Comprehension? && Agree(env, e, c, d)
    ensures Agree(env, e.cond, Inner(e, c, element, accu), Inner(e, d, element, accu))
    ensures Agree(env, e.step, Inner(e, c, element, accu), Inner(e, d, element, accu))
  {
    var ci, di := Inner(e, c, element, accu), Inner(e, d, element, accu);
    forall x | Free(env, e.cond, x) > 0 || Free(env, e.step, x) > 0 ensures Lookup(ci, x) == Lookup(di, x) {
      if x !in LoopVars(e) {
        assert Free(env, e, x) > 0;
        assert Lookup(ci, x) == Lookup(c, x) && Lookup(di, x) == Lookup(d, x);
      }
    }
  }

  /** The part of the context that `filterContext` keeps for the reported identifiers. */
  function Filtered(ctx: Ctx, refs: set<string>): Ctx {
    map x | x in ctx && x in refs :: ctx[x]
  }

  /** If nothing is captured, the reported identifiers are all that evaluation needs of a context. */
  lemma ReportedSuffice(env: Env, ops: Ops, e: Expr, ctx: Ctx, out: Inspection, resources: set<string>)
    requires Reports(out, resources, {}, x => Seen(env, e, x))
    requires forall x | Free(env, e, x) > 0 :: NotCaptured(env, e, x)
    requires forall x | x in ctx :: x in resources || !IsInternal(x)
    ensures Eval(env, ops, e, Filtered(ctx, set x | x in out.resources + out.unknown)) == Eval(env, ops, e, ctx)
  {
    var refs := set x | x in out.resources + out.unknown;
    forall x | Free(env, e, x) > 0 ensures Lookup(Filtered(ctx, refs), x) == Lookup(ctx, x) {
      SeenIsFreeIff(env, e, x);
    }
    EvalCoincides(env, ops, e, Filtered(ctx, refs), ctx);
  }

  /** What the inspector reports of an expression: the free occurrences of each identifier that is not captured. */
  method Inspect(env: Env, resources: set<string>, e: Expr) returns (out: Inspection)
    ensures Reports(out, resources, {}, x => Seen(env, e, x))
    ensures forall x | NotCaptured(env, e, x) ::
              out.resources[x] + out.unknown[x] == if x !in resources && IsInternal(x) then 0 else Free(env, e, x)
  {
    var inspector := new Inspector(env, resources);
    out := inspector.InspectExpr(e);
    forall x ensures NotCaptured(env, e, x) <==> Seen(env, e, x) == Free(env, e, x) {
      SeenIsFreeIff(env, e, x);
    }
  }
}
