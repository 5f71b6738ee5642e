/** What a run over all nodes achieves, whichever walk it takes: `buildDesiredComposed` in `fn.go`. */
module Runs {
  import opened Sets
  import opened Trees
  import opened Graphs
  import opened Objects
  import opened World
  import opened Adequacy
  import opened Reconcile
  import opened Faults
  import opened Walks
  import opened Meanings
  import Naming

  /** An emitted resource is one of the objects that its node resolves to, and its node may be resolved. */
  ghost predicate SafeEntry(w: World, desired: Desired, id: ID, k: nat, name: string, c: Composed)
    requires WellWired(w)
  {
    && Managed(w, id) && id in desired && k < |desired[id]| && Step(w, desired, id) == Some(desired[id])
    && name == ResourceName(w, id, desired[id][k]) && c.body == desired[id][k]
    && (c.ready.Unspecified? <==> w.specs[id].readyWhen == [])
    && (c.ready.Ready? ==> ObservedReady(w, desired, id))
  }

  ghost predicate SafeOutput(w: World, desired: Desired, before: map<string, Composed>, out: map<string, Composed>)
    requires WellWired(w)
  {
    forall name | name in out ::
      (name in before && out[name] == before[name]) || exists id, k :: SafeEntry(w, desired, id, k, name, out[name])
  }

  // ---- In terms of expressions and observed objects. ----

  /** What makes a dependency ready: its object or its items are there, and its readyWhen expressions are true. */
  ghost predicate IsUp(w: World, desired: Desired, id: ID)
    requires WellWired(w) && id in w.specs
  {
    var items, es := if id in w.observed then w.observed[id] else [], w.specs[id].readyWhen;
    match w.specs[id].kind
    case ExternalCollection => forall o, e | o in items && e in es :: w.eval(e.original, map["each" := o]) == Value(Bool(true))
    case Collection =>
      id in desired && (desired[id] != [] ==>
        |desired[id]| <= |items| && forall o, e | o in items && e in es :: w.eval(e.original, map["each" := o]) == Value(Bool(true)))
    case _ => items != [] && forall e | e in es :: w.eval(e.original, FullContext(w)) == Value(Bool(true))
  }

  /** The node's conditions are true, and what they refer to is ready. */
  ghost predicate IsMet(w: World, desired: Desired, id: ID)
    requires WellWired(w) && id in w.specs
  {
    forall e | e in w.specs[id].includeWhen ::
      && w.eval(e.original, FullContext(w)) == Value(Bool(true))
      && forall r | r in e.refs && r != "schema" :: r in w.specs[id].deps && r in w.specs && IsUp(w, desired, r)
  }

  lemma UpIsReady(w: World, desired: Desired, id: ID)
    requires WellWired(w) && id in w.specs
    ensures IsUp(w, desired, id) <==> ObservedReady(w, desired, id)
  {
    hide FullContext, WellWired;
    assert AllItemsReady(w, id) <==>
           forall o, e | o in Observed(w, id) && e in w.specs[id].readyWhen :: w.eval(e.original, map["each" := o]) == Value(Bool(true)) by {
      forall o, e ensures HoldsForEach(w, e, o) <==> w.eval(e.original, map["each" := o]) == Value(Bool(true)) {
      }
    }
  }

  lemma MetIsOwn(w: World, desired: Desired, id: ID)
    requires WellWired(w) && id in w.specs && id != INSTANCE
    ensures IsMet(w, desired, id) <==> OwnConditions(w, desired, id)
  {
    hide FullContext, ObservedReady, IsUp;
    forall r | r in w.specs ensures IsUp(w, desired, r) <==> ObservedReady(w, desired, r) {
      UpIsReady(w, desired, r);
    }
    forall e, r | e in w.specs[id].includeWhen && r in e.refs && r != "schema" ensures r in ConditionRefs(w.specs[id]) {
    }
  }

  /**
    Emission safety: nothing that the resource's node depends on has a condition that is not met, and everything that
    it directly depends on is ready on what is observed.
   */
  lemma EmissionSafe(w: World, desired: Desired, id: ID, k: nat, name: string, c: Composed)
    requires WellWired(w) && SafeEntry(w, desired, id, k, name, c)
    ensures !Excluded(w, id)
    ensures forall m | m in w.specs && Reaches(IgnoreGraph(w), id, m) && m != "schema" :: IsMet(w, desired, m) && !Excluded(w, m)
    ensures forall d | d in w.specs[id].deps && d != "schema" :: IsUp(w, desired, d)
    ensures ObjectsOf(w, id).Some? && c.body in ObjectsOf(w, id).value && (c.ready.Ready? ==> IsUp(w, desired, id))
  {
    hide OwnConditions, ObservedReady, ObjectsOf, Excluded, IsMet, IsUp;
    if Excluded(w, id) {
      ExcludedNotIncluded(w, desired, id);
    }
    forall m | m in w.specs && Reaches(IgnoreGraph(w), id, m) && m != "schema" ensures IsMet(w, desired, m) && !Excluded(w, m) {
      IncludedBelow(w, desired, id, m);
      MetIsOwn(w, desired, m);
      if Excluded(w, m) {
        ExcludedNotIncluded(w, desired, m);
      }
    }
    UpIsReady(w, desired, id);
    forall d | d in w.specs[id].deps && d != "schema" ensures IsUp(w, desired, d) {
      UpIsReady(w, desired, d);
    }
  }

  /** And whatever meets that is emitted, under its name or the name of another of the node's objects that comes later. */
  lemma MetIsEmitted(w: World, before: map<string, Composed>, desired: Desired, out: map<string, Composed>, id: ID, o: Json)
    requires WellWired(w) && RunResult(w, before, desired, out) && id in w.specs
    requires w.specs[id].kind.Resource? || w.specs[id].kind.Collection?
    requires forall m | m in w.specs && Reaches(IgnoreGraph(w), id, m) && m != "schema" :: IsMet(w, desired, m)
    requires forall d | d in w.specs[id].deps && d != "schema" :: IsUp(w, desired, d)
    requires ObjectsOf(w, id).Some? && o in ObjectsOf(w, id).value
    ensures var name := if w.specs[id].kind.Collection? then id + "-" + StringAt(o, [Field("metadata"), Field("name")]) else id;
            && name in out && out[name].body in ObjectsOf(w, id).value
            && (out[name].ready.Unspecified? <==> w.specs[id].readyWhen == [])
            && (out[name].ready.Ready? <==> w.specs[id].readyWhen != [] && IsUp(w, desired, id))
  {
    hide OwnConditions, ObservedReady, ObjectsOf, IsMet, IsUp, Entries, Reaches;
    forall m | m in w.specs && Reaches(IgnoreGraph(w), id, m) ensures OwnConditions(w, desired, m) {
      if m != INSTANCE {
        MetIsOwn(w, desired, m);
      } else {
        InstanceConditions(w, desired);
      }
    }
    forall d | d in w.specs[id].deps && d != INSTANCE ensures ObservedReady(w, desired, d) {
      UpIsReady(w, desired, d);
    }
    assert Step(w, desired, id) == ObjectsOf(w, id) && id in desired && desired[id] == ObjectsOf(w, id).value;
    UpIsReady(w, desired, id);
    var ready, name := ReadyStateOf(w, desired, id), ResourceName(w, id, o);
    EntryThere(w, id, desired[id], ready, o);
    assert name in Emitted(w, desired, id) && out[name] == Emitted(w, desired, id)[name];
    var k := EntryComesFrom(w, id, desired[id], ready, name);
  }

  lemma {:induction false} EntryThere(w: World, id: ID, objs: seq<Json>, ready: ReadyState, o: Json)
    requires id in w.specs && o in objs
    ensures ResourceName(w, id, o) in Entries(w, id, objs, ready)
  {
    hide ResourceName;
    var n := |objs| - 1;
    if o != objs[n] {
      assert objs == objs[..n] + [objs[n]];
      EntryThere(w, id, objs[..n], ready, o);
    }
  }

  lemma IncludedBelow(w: World, desired: Desired, id: ID, m: ID)
    requires WellWired(w) && id in w.specs && m in w.specs && Included(w, desired, id) && Reaches(IgnoreGraph(w), id, m)
    ensures Included(w, desired, m)
  {
    var g := IgnoreGraph(w);
    forall n | n in w.specs && Reaches(g, m, n) ensures OwnConditions(w, desired, n) {
      var p :| IsPathBetween(g, p, id, m);
      var q :| IsPathBetween(g, q, m, n);
      JoinPaths(g, p, q);
      assert IsPathBetween(g, p + q[1..], id, n);
    }
  }

  /** Every managed node before position `k` is resolved if and as it should be; without right references, only as. */
  ghost predicate ResolvedUpTo(w: World, order: seq<ID>, k: nat, desired: Desired)
    requires WellWired(w) && k <= |order|
  {
    && (forall id | Managed(w, id) && id in desired :: id in order[..k] && Step(w, desired, id) == Some(desired[id]))
    && (Adequate(w) ==> forall id | Managed(w, id) && id in order[..k] && id !in desired :: Step(w, desired, id) == None)
  }

  lemma PrefixDownward(w: World, order: seq<ID>, k: nat)
    requires WellWired(w) && Ordered(w, order) && k <= |order|
    ensures Downward(w, Elems(order[..k]))
    ensures k < |order| ==> order[k] in w.specs && order[k] !in order[..k]
    ensures k < |order| && !w.specs[order[k]].kind.Instance? ==> w.specs[order[k]].deps <= Elems(order[..k])
  {
    var g := IgnoreGraph(w);
    forall i | 0 <= i < |order| && !w.specs[order[i]].kind.Instance? ensures w.specs[order[i]].deps <= Elems(order[..i]) {
      assert g[order[i]] <= Elems(order[..i]);
    }
    forall id | id in Elems(order[..k]) && !w.specs[id].kind.Instance? ensures w.specs[id].deps <= Elems(order[..k]) {
      var i :| 0 <= i < k && order[i] == id;
      assert Elems(order[..i]) <= Elems(order[..k]);
    }
  }

  /** What is decided for the nodes up to `k` stays so when the node at `k` is resolved. */
  lemma StepKept(w: World, order: seq<ID>, k: nat, desired: Desired, objs: seq<Json>, id: ID)
    requires WellWired(w) && Ordered(w, order) && k < |order| && Managed(w, id) && id in order[..k + 1]
    ensures Step(w, desired[order[k] := objs], id) == Step(w, desired, id)
    ensures id != order[k] ==>
              ObservedReady(w, desired[order[k] := objs], id) == ObservedReady(w, desired, id)
  {
    hide Step, ObservedReady;
    var i :| 0 <= i <= k && order[i] == id;
    PrefixDownward(w, order, i);
    PrefixDownward(w, order, k);
    assert order[k] !in order[..i];
    StepLocal(w, Elems(order[..i]), desired, desired[order[k] := objs], id);
    ReadyLocal(w, {id}, desired, if id == order[k] then desired else desired[order[k] := objs], id);
  }

  lemma ResolvedOneMore(w: World, order: seq<ID>, k: nat, desired: Desired, objs: seq<Json>)
    requires WellWired(w) && Ordered(w, order) && k < |order| && Managed(w, order[k])
    requires ResolvedUpTo(w, order, k, desired) && Step(w, desired, order[k]) == Some(objs)
    ensures ResolvedUpTo(w, order, k + 1, desired[order[k] := objs])
  {
    hide Step, Adequate;
    var desired' := desired[order[k] := objs];
    forall id | Managed(w, id) && id in order[..k + 1] ensures Step(w, desired', id) == Step(w, desired, id) {
      StepKept(w, order, k, desired, objs, id);
    }
    assert order[..k + 1] == order[..k] + [order[k]];
  }

  lemma ResolvedNoMore(w: World, order: seq<ID>, k: nat, desired: Desired)
    requires WellWired(w) && Ordered(w, order) && k < |order|
    requires ResolvedUpTo(w, order, k, desired)
    requires Adequate(w) && Managed(w, order[k]) ==> Step(w, desired, order[k]) == None
    ensures ResolvedUpTo(w, order, k + 1, desired)
  {
    hide Step, Adequate;
    assert order[..k + 1] == order[..k] + [order[k]];
  }

  lemma NothingSafe(w: World, desired: Desired, before: map<string, Composed>)
    requires WellWired(w)
    ensures SafeOutput(w, desired, before, before)
  {
  }

  lemma NothingOutput(w: World, desired: Desired, before: map<string, Composed>)
    requires WellWired(w)
    ensures Output(w, desired, {INSTANCE}, before, before)
  {
    assert Emitted(w, desired, INSTANCE) == map[];
    hide Emitted;
  }

  lemma SafeKept(w: World, order: seq<ID>, k: nat, desired: Desired, objs: seq<Json>,
                 before: map<string, Composed>, out: map<string, Composed>)
    requires WellWired(w) && Ordered(w, order) && k < |order| && order[k] !in desired
    requires ResolvedUpTo(w, order, k, desired) && SafeOutput(w, desired, before, out)
    ensures SafeOutput(w, desired[order[k] := objs], before, out)
  {
    hide Step, ObservedReady, Adequate;
    var desired' := desired[order[k] := objs];
    forall name | name in out && !(name in before && out[name] == before[name])
      ensures exists id, i :: SafeEntry(w, desired', id, i, name, out[name])
    {
      var id, i :| SafeEntry(w, desired, id, i, name, out[name]);
      assert id in order[..k];
      StepKept(w, order, k, desired, objs, id);
      assert SafeEntry(w, desired', id, i, name, out[name]);
    }
  }

  lemma OutputKept(w: World, order: seq<ID>, k: nat, desired: Desired, objs: seq<Json>,
                   before: map<string, Composed>, out: map<string, Composed>)
    requires WellWired(w) && Ordered(w, order) && k < |order| && order[k] !in desired
    requires Output(w, desired, Elems(order[..k]), before, out)
    ensures Output(w, desired[order[k] := objs], Elems(order[..k]), before, out)
  {
    hide Emitted, Output;
    PrefixDownward(w, order, k);
    OutputSameDesired(w, desired[order[k] := objs], desired, Elems(order[..k]), before, out);
  }

  /** Nothing is emitted for a node that is not resolved. */
  lemma OutputNoMore(w: World, order: seq<ID>, k: nat, desired: Desired, before: map<string, Composed>, out: map<string, Composed>)
    requires WellWired(w) && k < |order| && !(Managed(w, order[k]) && order[k] in desired)
    requires Output(w, desired, Elems(order[..k]), before, out)
    ensures Output(w, desired, Elems(order[..k + 1]), before, out)
  {
    hide Emitted, WellWired, Managed;
    var id := order[k];
    NoneEmitted(w, desired, id);
    assert Elems(order[..k + 1]) == Elems(order[..k]) + {id};
  }

  lemma NoneEmitted(w: World, desired: Desired, id: ID)
    requires WellWired(w) && !(Managed(w, id) && id in desired)
    ensures Emitted(w, desired, id) == map[]
  {
  }

  /** The resources of one more node are added; they replace nothing that another node has emitted. */
  lemma OutputOneMore(w: World, order: seq<ID>, k: nat, desired: Desired,
                      before: map<string, Composed>, out: map<string, Composed>)
    requires WellWired(w) && ValidIDs(w) && k < |order| && order[k] !in order[..k]
    requires Output(w, desired, Elems(order[..k]), before, out)
    ensures Output(w, desired, Elems(order[..k + 1]), before, out + Emitted(w, desired, order[k]))
  {
    hide Emitted;
    var id, more := order[k], Emitted(w, desired, order[k]);
    assert Elems(order[..k + 1]) == Elems(order[..k]) + {id};
    forall other, name | other in Elems(order[..k + 1]) && name in Emitted(w, desired, other)
      ensures name in out + more && (out + more)[name] == Emitted(w, desired, other)[name]
    {
      if other != id && name in more {
        EmittedApart(w, desired, other, id, name);
      }
    }
  }

  // ---- One node. ----

  ghost predicate EmittedAs(w: World, desired: Desired, id: ID, objs: seq<Json>, k: nat, name: string, c: Composed)
    requires WellWired(w) && id in w.specs
  {
    && k < |objs| && name == ResourceName(w, id, objs[k]) && c.body == objs[k]
    && (c.ready.Unspecified? <==> w.specs[id].readyWhen == [])
    && (c.ready.Ready? ==> ObservedReady(w, desired, id))
  }

  /** `out` has what was there before and some of `objs`. */
  ghost predicate Adds(w: World, desired: Desired, id: ID, objs: seq<Json>, before: map<string, Composed>, out: map<string, Composed>)
    requires WellWired(w) && id in w.specs
  {
    forall name | name in out ::
      (name in before && out[name] == before[name]) || exists k :: EmittedAs(w, desired, id, objs, k, name, out[name])
  }

  lemma AddsNothing(w: World, desired: Desired, id: ID, objs: seq<Json>, before: map<string, Composed>)
    requires WellWired(w) && id in w.specs
    ensures Adds(w, desired, id, objs, before, before)
    ensures forall state :: before + Entries(w, id, objs[..0], state) == before
  {
  }

  lemma AddsOne(w: World, desired: Desired, id: ID, objs: seq<Json>, before: map<string, Composed>,
                out: map<string, Composed>, i: nat, c: Composed)
    requires WellWired(w) && id in w.specs && i < |objs| && Adds(w, desired, id, objs, before, out)
    requires c.body == objs[i] && (c.ready.Unspecified? <==> w.specs[id].readyWhen == [])
    requires c.ready.Ready? ==> ObservedReady(w, desired, id)
    ensures Adds(w, desired, id, objs, before, out[ResourceName(w, id, objs[i]) := c])
  {
    hide ObservedReady, ResourceName;
    var out' := out[ResourceName(w, id, objs[i]) := c];
    assert EmittedAs(w, desired, id, objs, i, ResourceName(w, id, objs[i]), c);
  }

  lemma EntriesOne(w: World, id: ID, objs: seq<Json>, i: nat, state: ReadyState)
    requires id in w.specs && i < |objs|
    ensures Entries(w, id, objs[..i + 1], state) ==
            Entries(w, id, objs[..i], state)[ResourceName(w, id, objs[i]) := Composed(objs[i], state)]
  {
    assert objs[..i + 1][..i] == objs[..i];
  }

  /** The ready state of a resource of an included node. */
  lemma ReadyStateMeans(w: World, rank: map<ID, nat>, walk: Walk, m: Memory, desired: Desired, id: ID)
    requires WellWired(w) && Monotone(w.eval) && Sound(w, m.cache) && id in w.specs && id != INSTANCE && Picks(walk) && Ranked(w, rank)
    requires Included(w, desired, id)
    ensures var (state, next) := ReadyStateNow(w, rank, walk, m, desired, id);
            && Sound(w, next.cache)
            && (state.Unspecified? <==> w.specs[id].readyWhen == [])
            && (state.Ready? ==> ObservedReady(w, desired, id))
            && (Adequate(w) ==> state == ReadyStateOf(w, desired, id))
  {
    hide WellWired, Monotone, Sound, ReadyNow, ObservedReady, Included, Excluded, Adequate, ConditionsFaultless, Blocked;
    ReadyNowMeans(w, rank, walk, m, desired, id);
    NotExcluded(w, desired, id);
  }

  lemma NotExcluded(w: World, desired: Desired, id: ID)
    requires WellWired(w) && id in w.specs && Included(w, desired, id)
    ensures !Excluded(w, id)
  {
    hide Included, Excluded;
    if Excluded(w, id) {
      ExcludedNotIncluded(w, desired, id);
    }
  }

  /** The objects of one resolved node, each with its ready state. */
  lemma {:induction false} EmitMeans(w: World, rank: map<ID, nat>, walk: Walk, s: State, id: ID, objs: seq<Json>, i: nat,
                                     before: map<string, Composed>)
    requires WellWired(w) && Monotone(w.eval) && Sound(w, s.memory.cache) && id in w.specs && id != INSTANCE && Picks(walk) && Ranked(w, rank)
    requires Included(w, s.desired, id) && i <= |objs| && Adds(w, s.desired, id, objs, before, s.out)
    requires Adequate(w) ==> s.out == before + Entries(w, id, objs[..i], ReadyStateOf(w, s.desired, id))
    ensures var e := EmitFrom(w, rank, walk, s, id, objs, i);
            && e.ok == s.ok && e.desired == s.desired && Sound(w, e.memory.cache)
            && Adds(w, s.desired, id, objs, before, e.out)
            && (Adequate(w) ==> e.out == before + Entries(w, id, objs, ReadyStateOf(w, s.desired, id)))
    decreases |objs| - i
  {
    hide WellWired, Monotone, Sound, ObservedReady, Included, Adequate, Adds, Entries, ReadyStateNow, ReadyStateOf, ResourceName;
    if i == |objs| {
      assert objs[..i] == objs;
    } else {
      var (state, m) := ReadyStateNow(w, rank, walk, s.memory, s.desired, id);
      ReadyStateMeans(w, rank, walk, s.memory, s.desired, id);
      AddsOne(w, s.desired, id, objs, before, s.out, i, Composed(objs[i], state));
      EntriesOne(w, id, objs, i, state);
      var next := s.(out := s.out[ResourceName(w, id, objs[i]) := Composed(objs[i], state)], memory := m);
      EmitMeans(w, rank, walk, next, id, objs, i + 1, before);
    }
  }

  // ---- The whole run. ----

  /** What the run has achieved after the nodes before position `k` of `all`. */
  ghost predicate Progress(w: World, all: seq<ID>, k: nat, before: map<string, Composed>, resolved: Desired, out: map<string, Composed>)
    requires WellWired(w) && k <= |all|
  {
    && ResolvedUpTo(w, all, k, resolved) && SafeOutput(w, resolved, before, out)
    && (Adequate(w) ==> Output(w, resolved, Elems(all[..k]), before, out))
  }

  /** The node at `k` is resolved, but its objects are not emitted yet. */
  ghost predicate Halfway(w: World, all: seq<ID>, k: nat, before: map<string, Composed>, resolved: Desired, out: map<string, Composed>)
    requires WellWired(w) && k < |all|
  {
    && ResolvedUpTo(w, all, k + 1, resolved) && SafeOutput(w, resolved, before, out)
    && (Adequate(w) ==> Output(w, resolved, Elems(all[..k]), before, out))
  }

  lemma StepDone(w: World, resolved: Desired, id: ID, objs: seq<Json>)
    requires WellWired(w) && id in w.specs && !w.specs[id].kind.Instance?
    requires Included(w, resolved, id) && ObjectsOf(w, id) == Some(objs)
    requires forall d | d in w.specs[id].deps && d != INSTANCE :: Excluded(w, d) || ObservedReady(w, resolved, d)
    ensures Step(w, resolved, id) == Some(objs)
  {
    hide Included, Excluded, ObservedReady, ObjectsOf, OwnConditions;
    IncludedStep(w, resolved, id);
    forall d | d in w.specs[id].deps && d != INSTANCE ensures ObservedReady(w, resolved, d) {
      NotExcluded(w, resolved, d);
    }
  }

  lemma Resolving(w: World, all: seq<ID>, k: nat, before: map<string, Composed>, resolved: Desired, out: map<string, Composed>, objs: seq<Json>)
    requires WellWired(w) && Ordered(w, all) && k < |all| && Progress(w, all, k, before, resolved, out)
    requires Managed(w, all[k]) && Step(w, resolved, all[k]) == Some(objs)
    ensures var resolved' := resolved[all[k] := objs];
            Halfway(w, all, k, before, resolved', out) && Step(w, resolved', all[k]) == Some(objs)
  {
    hide WellWired, Ordered, Adequate, Step, Output, SafeOutput, ResolvedUpTo;
    NotYetResolved(w, all, k, before, resolved, out);
    ResolvedOneMore(w, all, k, resolved, objs);
    SafeKept(w, all, k, resolved, objs, before, out);
    StepKept(w, all, k, resolved, objs, all[k]);
    if Adequate(w) {
      OutputKept(w, all, k, resolved, objs, before, out);
    }
  }

  lemma Emitting(w: World, all: seq<ID>, k: nat, before: map<string, Composed>, resolved: Desired, dcds: map<string, Composed>,
                 objs: seq<Json>, out: map<string, Composed>)
    requires WellWired(w) && Ordered(w, all) && ValidIDs(w) && k < |all| && Managed(w, all[k])
    requires Halfway(w, all, k, before, resolved, dcds) && Step(w, resolved, all[k]) == Some(objs)
    requires all[k] in resolved && resolved[all[k]] == objs
    requires Adds(w, resolved, all[k], objs, dcds, out)
    requires Adequate(w) ==> out == dcds + Entries(w, all[k], objs, ReadyStateOf(w, resolved, all[k]))
    ensures Progress(w, all, k + 1, before, resolved, out)
  {
    hide WellWired, Ordered, ValidIDs, Adequate, Step, Output, ResolvedUpTo, Entries, ReadyStateOf, ObservedReady;
    PrefixDownward(w, all, k);
    forall name | name in out && !(name in before && out[name] == before[name])
      ensures exists id, i :: SafeEntry(w, resolved, id, i, name, out[name])
    {
      if !(name in dcds && out[name] == dcds[name]) {
        var i :| EmittedAs(w, resolved, all[k], objs, i, name, out[name]);
        assert SafeEntry(w, resolved, all[k], i, name, out[name]);
      }
    }
    if Adequate(w) {
      OutputOneMore(w, all, k, resolved, before, dcds);
    }
  }

  /** Nothing changes for a node that is not managed or cannot be resolved yet. */
  lemma Skipped(w: World, all: seq<ID>, k: nat, before: map<string, Composed>, resolved: Desired, out: map<string, Composed>)
    requires WellWired(w) && Ordered(w, all) && k < |all| && Progress(w, all, k, before, resolved, out)
    requires Adequate(w) && Managed(w, all[k]) ==> Step(w, resolved, all[k]) == None
    ensures Progress(w, all, k + 1, before, resolved, out)
  {
    hide WellWired, Ordered, Adequate, Step, Output, SafeOutput;
    ResolvedNoMore(w, all, k, resolved);
    NotYetResolved(w, all, k, before, resolved, out);
    if Adequate(w) {
      OutputNoMore(w, all, k, resolved, before, out);
    }
  }

  lemma NotYetResolved(w: World, all: seq<ID>, k: nat, before: map<string, Composed>, resolved: Desired, out: map<string, Composed>)
    requires WellWired(w) && Ordered(w, all) && k < |all| && Progress(w, all, k, before, resolved, out)
    ensures Managed(w, all[k]) ==> all[k] !in resolved
  {
    hide Step, Adequate, SafeOutput, Output;
    PrefixDownward(w, all, k);
  }

  lemma StepIncludes(w: World, desired: Desired, id: ID)
    requires WellWired(w) && id in w.specs
    ensures Step(w, desired, id).Some? ==> Included(w, desired, id)
  {
  }

  /** The objects of a node that has just been resolved are emitted. */
  lemma EmitResolvedMeans(w: World, rank: map<ID, nat>, walk: Walk, s: State, id: ID, objs: seq<Json>, all: seq<ID>, k: nat,
                          before: map<string, Composed>)
    requires WellWired(w) && Monotone(w.eval) && Sound(w, s.memory.cache) && Picks(walk) && Ranked(w, rank)
    requires Ordered(w, all) && ValidIDs(w) && k < |all| && all[k] == id && Managed(w, id)
    requires Progress(w, all, k, before, s.desired, s.out) && Step(w, s.desired, id) == Some(objs)
    ensures var e := EmitFrom(w, rank, walk, s.(desired := s.desired[id := objs]), id, objs, 0);
            e.ok == s.ok && Sound(w, e.memory.cache) && Progress(w, all, k + 1, before, e.desired, e.out)
  {
    hide WellWired, Monotone, Sound, Ordered, ValidIDs, Included, ObservedReady, Adequate, Progress, Halfway, ObjectsOf, Step, Adds;
    hide Entries, ReadyStateOf, EmitFrom;
    DepsKnown(w, id);
    Resolving(w, all, k, before, s.desired, s.out, objs);
    var s' := s.(desired := s.desired[id := objs]);
    StepIncludes(w, s'.desired, id);
    AddsNothing(w, s'.desired, id, objs, s.out);
    EmitMeans(w, rank, walk, s', id, objs, 0, s.out);
    Emitting(w, all, k, before, s'.desired, s.out, objs, EmitFrom(w, rank, walk, s', id, objs, 0).out);
  }

  /** One node: skipped, pending, failed, or resolved and emitted. */
  lemma VisitMeans(w: World, rank: map<ID, nat>, walk: Walk, s: State, all: seq<ID>, k: nat, before: map<string, Composed>)
    requires WellWired(w) && Monotone(w.eval) && Sound(w, s.memory.cache) && Picks(walk) && Ranked(w, rank)
    requires Ordered(w, all) && ValidIDs(w) && k < |all| && all[k] in w.specs && all[k] != INSTANCE && s.ok
    requires Progress(w, all, k, before, s.desired, s.out)
    ensures var e := VisitNow(w, rank, walk, s, all[k]);
            && Sound(w, e.memory.cache)
            && (e.ok ==> Progress(w, all, k + 1, before, e.desired, e.out))
            && (Adequate(w) && Faultless(w) ==> e.ok)
  {
    hide WellWired, Monotone, Sound, Ordered, ValidIDs, Included, Excluded, ObservedReady, Adequate, Faultless, AllDecided, Progress;
    hide ObjectsOf, OwnConditions, Step, EmitFrom, IgnoredNow, ResolveNow, Blocked, ConditionsFaultless;
    var id := all[k];
    DepsKnown(w, id);
    if w.specs[id].kind.External? || w.specs[id].kind.ExternalCollection? {
      Skipped(w, all, k, before, s.desired, s.out);
    } else {
      StepIncludes(w, s.desired, id);
      IgnoredMeans(w, rank, walk, s.memory, s.desired, id);
      var (ignored, m) := IgnoredNow(w, rank, walk, s.memory, s.desired, id);
      if !ignored.NotIgnored? {
        Skipped(w, all, k, before, s.desired, s.out);
      } else {
        NotYetResolved(w, all, k, before, s.desired, s.out);
        ResolveMeans(w, rank, walk, m, s.desired, id);
        var (objs, next) := ResolveNow(w, rank, walk, m, s.desired, id);
        match objs {
          case NotYet => Skipped(w, all, k, before, s.desired, s.out);
          case Failure =>
          case Done(o) =>
            StepDone(w, s.desired, id, o);
            EmitResolvedMeans(w, rank, walk, s.(memory := next), id, o, all, k, before);
        }
      }
    }
  }

  lemma {:induction false} RunProgress(w: World, rank: map<ID, nat>, walk: Walk, s: State, order: seq<ID>, k: nat, before: map<string, Composed>)
    requires WellWired(w) && Monotone(w.eval) && Sound(w, s.memory.cache) && Picks(walk) && Ranked(w, rank)
    requires Ordered(w, [INSTANCE] + order) && ValidIDs(w) && k <= |order| && s.ok && forall id | id in order :: id in w.specs && id != INSTANCE
    requires Progress(w, [INSTANCE] + order, k + 1, before, s.desired, s.out)
    ensures var e := RunFrom(w, rank, walk, s, order, k);
            && (e.ok ==> Progress(w, [INSTANCE] + order, |order| + 1, before, e.desired, e.out))
            && (Adequate(w) && Faultless(w) ==> e.ok)
    decreases |order| - k
  {
    hide WellWired, Monotone, Sound, Ordered, ValidIDs, Adequate, Faultless, Progress, VisitNow;
    if k < |order| {
      var all := [INSTANCE] + order;
      assert all[k + 1] == order[k] && order[k] in order;
      VisitMeans(w, rank, walk, s, all, k + 1, before);
      var next := VisitNow(w, rank, walk, s, order[k]);
      if next.ok {
        RunProgress(w, rank, walk, next, order, k + 1, before);
      }
    }
  }

  lemma Starting(w: World, order: seq<ID>, before: map<string, Composed>, start: Desired)
    requires WellWired(w) && forall id | Managed(w, id) :: id !in start
    ensures Progress(w, [INSTANCE] + order, 1, before, start, before)
  {
    hide Adequate, Step, Output, SafeOutput;
    var all := [INSTANCE] + order;
    assert all[..1] == [INSTANCE];
    NothingSafe(w, start, before);
    assert !Managed(w, INSTANCE);
    NothingOutput(w, start, before);
    assert Elems(all[..1]) == {INSTANCE};
  }

  lemma OrderKnown(w: World, order: seq<ID>)
    requires WellWired(w) && Ordered(w, [INSTANCE] + order)
    ensures Elems([INSTANCE] + order) == w.specs.Keys && forall id | id in order :: id in w.specs && id != INSTANCE
  {
    var all := [INSTANCE] + order;
    assert Elems(all) == IgnoreGraph(w).Keys == w.specs.Keys;
    forall i | 0 <= i < |order| ensures order[i] in w.specs && order[i] != INSTANCE {
      assert all[i + 1] == order[i] && all[0] == INSTANCE;
      assert all[i + 1] in Elems(all);
    }
  }

  /** Everything emitted is safe; with right references a success is the determined result, and only faults prevent it. */
  ghost predicate Achieves(w: World, before: map<string, Composed>, ok: bool, resolved: Desired, out: map<string, Composed>)
    requires WellWired(w)
  {
    && (ok ==> SafeOutput(w, resolved, before, out))
    && (ok && Adequate(w) ==> RunResult(w, before, resolved, out))
    && (Adequate(w) && Faultless(w) ==> ok)
  }

  /**
    A run with right values at first and nothing managed resolved: everything emitted is safe, and with right references
    a run without an error ends with the determined result, and only faults end a run with an error.
   */
  lemma RunMeans(w: World, rank: map<ID, nat>, walk: Walk, s: State, order: seq<ID>)
    requires WellWired(w) && Monotone(w.eval) && Sound(w, s.memory.cache) && Picks(walk) && Ranked(w, rank)
    requires Ordered(w, [INSTANCE] + order) && ValidIDs(w) && s.ok && forall id | Managed(w, id) :: id !in s.desired
    ensures forall id | id in order :: id in w.specs
    ensures var e := RunFrom(w, rank, walk, s, order, 0); Achieves(w, s.out, e.ok, e.desired, e.out)
  {
    hide WellWired, Monotone, Sound, Ordered, ValidIDs, Adequate, Faultless, Step, SafeOutput, Output, Managed, RunFrom;
    OrderKnown(w, order);
    Starting(w, order, s.out, s.desired);
    RunProgress(w, rank, walk, s, order, 0, s.out);
    var all := [INSTANCE] + order;
    assert all[..|order| + 1] == all;
    ManagedKnown(w);
  }

  lemma ManagedKnown(w: World)
    ensures forall id | Managed(w, id) :: id in w.specs
  {
  }
}
