/** Names of composed resources: given when resources are emitted, read when they are observed (`fn.go`). */
module Naming {
  import opened Sets
  import opened Trees
  import opened Objects

  type ID = string

  /** Resource ids are lower camel case: a small letter, then letters and digits. */
  predicate IsLetterOrDigit(c: char) {
    'a' <= c <= 'z' || 'A' <= c <= 'Z' || '0' <= c <= '9'
  }

  predicate ValidID(id: ID) {
    id != "" && 'a' <= id[0] <= 'z' && forall k | 0 <= k < |id| :: IsLetterOrDigit(id[k])
  }

  /** The composed name of a resource called `name` that node `id` produces. */
  function ComposedName(id: ID, isCollection: bool, name: string): string {
    if isCollection then id + "-" + name else id
  }

  /** Whether the part of `name` before position `i` is the id of a collection and a dash follows it. */
  predicate OwnerAt(name: string, collections: set<ID>, i: nat) {
    0 < i < |name| && name[i] == '-' && name[..i] in collections
  }

  /** `strings.LastIndex(s, "-")`. */
  function LastDash(s: string): (i: int)
    ensures -1 <= i < |s|
    ensures i >= 0 ==> s[i] == '-'
    ensures forall k | i < k < |s| :: s[k] != '-'
  {
    if s == "" then -1 else if s[|s| - 1] == '-' then |s| - 1 else LastDash(s[..|s| - 1])
  }

  /** The longest id of a collection that `name` starts with, before a dash; empty if there is none. */
  method FindCollectionNodeID(name: string, collections: set<ID>) returns (owner: ID)
    ensures owner == "" ==> forall i :: !OwnerAt(name, collections, i)
    ensures owner != "" ==> |owner| < |name| && owner == name[..|owner|] && OwnerAt(name, collections, |owner|)
    ensures owner != "" ==> forall i | |owner| < i :: !OwnerAt(name, collections, i)
  {
    var remaining := name;
    while true
      invariant |remaining| <= |name| && remaining == name[..|remaining|]
      invariant forall i | |remaining| <= i :: !OwnerAt(name, collections, i)
      decreases |remaining|
    {
      var idx := LastDash(remaining);
      if idx <= 0 {
        return "";
      }
      var prefix := name[..idx];
      if prefix in collections {
        return prefix;
      }
      remaining := prefix;
    }
  }

  /** The node that an observed resource belongs to: its namesake, or else the collection that owns its name. */
  predicate BelongsTo(name: string, labelled: bool, nodes: set<ID>, collections: set<ID>, id: ID) {
    if name in nodes then id == name
    else labelled && id != "" && |id| < |name| && id == name[..|id|] && OwnerAt(name, collections, |id|)
         && forall i | |id| < i < |name| :: !OwnerAt(name, collections, i)
  }

  lemma BelongsToOne(name: string, labelled: bool, nodes: set<ID>, collections: set<ID>, a: ID, b: ID)
    requires BelongsTo(name, labelled, nodes, collections, a) && BelongsTo(name, labelled, nodes, collections, b)
    ensures a == b
  {
  }

  lemma NoDash(id: ID, i: nat)
    requires ValidID(id) && i < |id|
    ensures id[i] != '-'
  {
    assert IsLetterOrDigit(id[i]);
  }

  /** The only place of a collection item's name where an owner can end is right after its own node's id. */
  lemma OwnerIsFirstPart(id: ID, name: string, collections: set<ID>, i: nat)
    requires ValidID(id) && forall c | c in collections :: ValidID(c)
    requires OwnerAt(id + "-" + name, collections, i)
    ensures i == |id| && id in collections
  {
    var s := id + "-" + name;
    assert s[|id|] == '-' && s[..|id|] == id;
    if i < |id| {
      NoDash(id, i);
    } else if i > |id| {
      NoDash(s[..i], |id|);
    }
  }

  /** What a node emits under a composed name is attributed to that node when it is observed. */
  lemma EmittedBelongsToEmitter(id: ID, isCollection: bool, name: string, nodes: set<ID>, collections: set<ID>, owner: ID)
    requires id in nodes && collections <= nodes && (isCollection <==> id in collections)
    requires forall n | n in nodes :: ValidID(n)
    ensures BelongsTo(ComposedName(id, isCollection, name), isCollection, nodes, collections, owner) <==> owner == id
  {
    var s := ComposedName(id, isCollection, name);
    if isCollection {
      assert s[|id|] == '-' && s[..|id|] == id;
      if s in nodes {
        NoDash(s, |id|);
      }
      assert OwnerAt(s, collections, |id|);
      forall i | OwnerAt(s, collections, i) ensures i == |id| {
        OwnerIsFirstPart(id, name, collections, i);
      }
      if BelongsTo(s, isCollection, nodes, collections, owner) {
        assert OwnerAt(s, collections, |owner|);
      }
    }
  }

  /** Different nodes, or different names in one collection, never give the same composed name. */
  lemma ComposedNamesDiffer(id: ID, isCollection: bool, name: string, id': ID, isCollection': bool, name': string)
    requires ValidID(id) && ValidID(id')
    requires ComposedName(id, isCollection, name) == ComposedName(id', isCollection', name')
    ensures id == id' && isCollection == isCollection' && (isCollection ==> name == name')
  {
    var s := ComposedName(id, isCollection, name);
    FirstDash(id, isCollection, name);
    FirstDash(id', isCollection', name');
    if isCollection && isCollection' {
      assert |id| == |id'|;
      assert id == s[..|id|] == id';
      assert name == s[|id| + 1..] == name';
    }
  }

  lemma FirstDash(id: ID, isCollection: bool, name: string)
    requires ValidID(id)
    ensures var s := ComposedName(id, isCollection, name);
            && (forall k | 0 <= k < |id| :: s[k] != '-')
            && (if isCollection then |id| < |s| && s[|id|] == '-' else |s| == |id|)
  {
    forall k | 0 <= k < |id| ensures id[k] != '-' {
      NoDash(id, k);
    }
  }

  // ---- Grouping what is observed. ----

  /** `groups[id]` are the bodies of the resources listed in `members[id]`: all that belong to `id`, each once. */
  ghost predicate Grouped(ocds: map<string, Json>, nodes: set<ID>, collections: set<ID>,
                             groups: map<ID, seq<Json>>, members: map<ID, seq<string>>) {
    && groups.Keys == members.Keys
    && (forall id | id in groups :: members[id] != [] && Distinct(members[id]) && Lists(ocds, members[id], groups[id]))
    && (forall name, id :: Member(members, name, id) <==>
          name in ocds && BelongsTo(name, HasIndex(ocds[name]), nodes, collections, id))
  }

  predicate Member(members: map<ID, seq<string>>, name: string, id: ID) {
    id in members && name in members[id]
  }

  /** `bodies` are the bodies of the resources named in `names`, in that order. */
  predicate Lists(ocds: map<string, Json>, names: seq<string>, bodies: seq<Json>) {
    |names| == |bodies| && forall k | 0 <= k < |names| :: names[k] in ocds && bodies[k] == ocds[names[k]]
  }

  /** Resources are visited in any order; those that belong to no node are skipped. */
  method GroupObservedByNodeID(ocds: map<string, Json>, nodes: set<ID>, collections: set<ID>)
    returns (groups: map<ID, seq<Json>>)
    ensures exists members :: Grouped(ocds, nodes, collections, groups, members)
  {
    groups := map[];
    ghost var members: map<ID, seq<string>> := map[];
    var todo := ocds.Keys;
    ghost var done: map<string, Json> := map[];
    while todo != {}
      invariant todo <= ocds.Keys && done.Keys == ocds.Keys - todo
      invariant forall name | name in done :: done[name] == ocds[name]
      invariant Grouped(done, nodes, collections, groups, members)
      decreases todo
    {
      var name :| name in todo;
      todo := todo - {name};
      var owner := name;
      if name !in nodes {
        owner := "";
        if HasIndex(ocds[name]) {
          owner := FindCollectionNodeID(name, collections);
        }
      }
      var matched := name in nodes || owner != "";
      if matched {
        GroupOneMore(done, nodes, collections, groups, members, name, ocds[name], owner);
        groups := groups[owner := GroupOf(groups, owner) + [ocds[name]]];
        members := members[owner := GroupOf(members, owner) + [name]];
      } else {
        GroupNoMore(done, nodes, collections, groups, members, name, ocds[name]);
      }
      done := done[name := ocds[name]];
    }
    assert done == ocds;
  }

  function GroupOf<T>(m: map<ID, seq<T>>, id: ID): seq<T> {
    if id in m then m[id] else []
  }

  lemma GroupOneMore(done: map<string, Json>, nodes: set<ID>, collections: set<ID>, groups: map<ID, seq<Json>>,
                        members: map<ID, seq<string>>, name: string, r: Json, owner: ID)
    requires Grouped(done, nodes, collections, groups, members) && name !in done
    requires BelongsTo(name, HasIndex(r), nodes, collections, owner)
    ensures Grouped(done[name := r], nodes, collections,
                    groups[owner := GroupOf(groups, owner) + [r]], members[owner := GroupOf(members, owner) + [name]])
  {
    hide BelongsTo, Distinct, Lists;
    var groups' := groups[owner := GroupOf(groups, owner) + [r]];
    var members' := members[owner := GroupOf(members, owner) + [name]];
    assert !Member(members, name, owner);
    forall id | id in groups'
      ensures Distinct(members'[id]) && Lists(done[name := r], members'[id], groups'[id])
    {
      if id == owner {
        ListOneMore(done, GroupOf(members, owner), GroupOf(groups, owner), name, r);
      } else {
        ListsStill(done, members[id], groups[id], name, r);
      }
    }
    forall n, id
      ensures Member(members', n, id) <==>
              n in done[name := r] && BelongsTo(n, HasIndex(done[name := r][n]), nodes, collections, id)
    {
      assert Member(members', n, id) <==> Member(members, n, id) || (n == name && id == owner);
      assert n in done ==> (Member(members, n, id) <==> BelongsTo(n, HasIndex(done[n]), nodes, collections, id));
      if n == name && BelongsTo(name, HasIndex(r), nodes, collections, id) {
        BelongsToOne(name, HasIndex(r), nodes, collections, id, owner);
      }
    }
  }

  lemma ListOneMore(done: map<string, Json>, names: seq<string>, bodies: seq<Json>, name: string, r: Json)
    requires name !in done && name !in names
    requires (names == [] && bodies == []) || (Distinct(names) && Lists(done, names, bodies))
    ensures Distinct(names + [name]) && Lists(done[name := r], names + [name], bodies + [r])
  {
  }

  lemma ListsStill(done: map<string, Json>, names: seq<string>, bodies: seq<Json>, name: string, r: Json)
    requires name !in done && Lists(done, names, bodies)
    ensures Lists(done[name := r], names, bodies)
  {
  }

  lemma GroupNoMore(done: map<string, Json>, nodes: set<ID>, collections: set<ID>, groups: map<ID, seq<Json>>,
                       members: map<ID, seq<string>>, name: string, r: Json)
    requires Grouped(done, nodes, collections, groups, members) && name !in done
    requires forall id :: !BelongsTo(name, HasIndex(r), nodes, collections, id)
    ensures Grouped(done[name := r], nodes, collections, groups, members)
  {
    hide BelongsTo, Distinct, Lists;
    forall id | id in groups ensures Lists(done[name := r], members[id], groups[id]) {
      ListsStill(done, members[id], groups[id], name, r);
    }
    forall n, id
      ensures Member(members, n, id) <==>
              n in done[name := r] && BelongsTo(n, HasIndex(done[name := r][n]), nodes, collections, id)
    {
      assert n in done ==> (Member(members, n, id) <==> BelongsTo(n, HasIndex(done[n]), nodes, collections, id));
    }
  }

  /** A resource that is no node's namesake and has no index as a label is in no group, whatever its name. */
  lemma UnlabelledSkipped(ocds: map<string, Json>, nodes: set<ID>, collections: set<ID>, groups: map<ID, seq<Json>>,
                          members: map<ID, seq<string>>, name: string)
    requires Grouped(ocds, nodes, collections, groups, members) && name in ocds && name !in nodes
    requires Get(ocds[name], LabelPath("kro.run/collection-index")).None?
    ensures forall id :: !Member(members, name, id)
  {
    hide LabelPath;
    LabelsRead(ocds[name], COLLECTION_INDEX_LABEL);
  }

  // ---- What the order of the visits leaves open. ----

  /** Bodies of the same resources, listed in another order. */
  lemma {:induction false} ListsPermute(ocds: map<string, Json>, a: seq<string>, x: seq<Json>, b: seq<string>, y: seq<Json>)
    requires Distinct(a) && Distinct(b) && (forall name :: name in a <==> name in b)
    requires Lists(ocds, a, x) && Lists(ocds, b, y)
    ensures multiset(x) == multiset(y) && |x| == |y|
    decreases |a|
  {
    hide WithoutAt, Lists, Distinct;
    if a == [] {
      AnyIn(b);
      AsManyBodies(ocds, a, x);
      AsManyBodies(ocds, b, y);
    } else {
      var n := |a| - 1;
      assert a[n] in b;
      var j :| 0 <= j < |b| && b[j] == a[n];
      ShorterBy(a, n);
      AsManyBodies(ocds, a, x);
      AsManyBodies(ocds, b, y);
      forall name ensures name in WithoutAt(a, n) <==> name in WithoutAt(b, j) {
        SameWithout(a, b, j, name);
      }
      ListsWithout(ocds, b, y, j);
      ListsWithout(ocds, a, x, n);
      ListsPermute(ocds, WithoutAt(a, n), WithoutAt(x, n), WithoutAt(b, j), WithoutAt(y, j));
    }
  }

  lemma AnyIn(s: seq<string>)
    ensures s == [] || exists x :: x in s
  {
    if s != [] {
      assert s[0] in s;
    }
  }

  lemma RepeatsIfLonger(s: seq<string>, x: string)
    ensures |s| <= 1 || !Distinct(s) || exists y :: y in s && y != x
  {
    if |s| > 1 {
      assert s[0] in s && s[1] in s;
    }
  }

  lemma ShorterBy<T>(s: seq<T>, j: nat)
    requires j < |s|
    ensures |WithoutAt(s, j)| == |s| - 1
  {
  }

  lemma AsManyBodies(ocds: map<string, Json>, names: seq<string>, bodies: seq<Json>)
    requires Lists(ocds, names, bodies)
    ensures |names| == |bodies|
  {
  }

  function WithoutAt<T>(s: seq<T>, j: nat): seq<T>
    requires j < |s|
  {
    s[..j] + s[j + 1..]
  }

  lemma ListsWithout(ocds: map<string, Json>, names: seq<string>, bodies: seq<Json>, j: nat)
    requires j < |names| && Distinct(names) && Lists(ocds, names, bodies)
    ensures Distinct(WithoutAt(names, j)) && Lists(ocds, WithoutAt(names, j), WithoutAt(bodies, j))
    ensures multiset(bodies) == multiset(WithoutAt(bodies, j)) + multiset{ocds[names[j]]}
    ensures |bodies| == |WithoutAt(bodies, j)| + 1
  {
    assert bodies == bodies[..j] + [bodies[j]] + bodies[j + 1..];
  }

  lemma SameWithout(a: seq<string>, b: seq<string>, j: nat, name: string)
    requires Distinct(a) && Distinct(b) && a != [] && j < |b| && b[j] == a[|a| - 1]
    requires name in a <==> name in b
    ensures name in WithoutAt(a, |a| - 1) <==> name in WithoutAt(b, j)
  {
    assert a == a[..|a| - 1] + [a[|a| - 1]] && b == b[..j] + [b[j]] + b[j + 1..];
  }

  /**
    Whatever the order in which resources are visited, the same nodes are observed, each with the same resources; only
    the order of the items of a collection is left open.
   */
  lemma GroupsPermute(ocds: map<string, Json>, nodes: set<ID>, collections: set<ID>,
                         a: map<ID, seq<Json>>, inA: map<ID, seq<string>>, b: map<ID, seq<Json>>, inB: map<ID, seq<string>>)
    requires Grouped(ocds, nodes, collections, a, inA) && Grouped(ocds, nodes, collections, b, inB)
    requires collections <= nodes
    ensures a.Keys == b.Keys <= nodes
    ensures forall id | id in a :: a[id] != [] && multiset(a[id]) == multiset(b[id])
    ensures forall id | id in a && id !in collections :: a[id] == b[id]
  {
    hide BelongsTo;
    forall id ensures (id in a <==> id in b) && (id in a ==> id in nodes) {
      GroupKnown(ocds, nodes, collections, a, inA, id);
      GroupKnown(ocds, nodes, collections, b, inB, id);
    }
    forall id | id in a
      ensures a[id] != [] && multiset(a[id]) == multiset(b[id]) && (id !in collections ==> a[id] == b[id])
    {
      GroupKnown(ocds, nodes, collections, a, inA, id);
      GroupKnown(ocds, nodes, collections, b, inB, id);
      forall name ensures name in inA[id] <==> name in inB[id] {
        assert Member(inA, name, id) <==> Member(inB, name, id);
      }
      ListsPermute(ocds, inA[id], a[id], inB[id], b[id]);
    }
  }

  /** A node has a group if and only if some resource belongs to it; without items it is the node's namesake. */
  lemma GroupKnown(ocds: map<string, Json>, nodes: set<ID>, collections: set<ID>,
                      groups: map<ID, seq<Json>>, members: map<ID, seq<string>>, id: ID)
    requires Grouped(ocds, nodes, collections, groups, members) && collections <= nodes
    ensures id in groups <==> exists name :: name in ocds && BelongsTo(name, HasIndex(ocds[name]), nodes, collections, id)
    ensures id in groups ==> id in nodes && groups[id] != []
    ensures id in groups && id !in collections ==> id in ocds && groups[id] == [ocds[id]]
  {
    if id in groups {
      var name := members[id][0];
      assert Member(members, name, id);
      if id !in collections {
        forall name | name in members[id] ensures name == id {
          assert Member(members, name, id);
        }
        RepeatsIfLonger(members[id], id);
      }
    }
    forall name | name in ocds && BelongsTo(name, HasIndex(ocds[name]), nodes, collections, id) ensures id in groups {
      assert Member(members, name, id);
    }
  }

  /** Whichever resource of a node is asked for, it can be the first of those listed for the node. */
  lemma AnyFirst(ocds: map<string, Json>, nodes: set<ID>, collections: set<ID>, name: string, id: ID)
    returns (groups: map<ID, seq<Json>>, members: map<ID, seq<string>>)
    requires name in ocds && BelongsTo(name, HasIndex(ocds[name]), nodes, collections, id)
    ensures Grouped(ocds, nodes, collections, groups, members)
    ensures id in groups && groups[id] != [] && groups[id][0] == ocds[name]
  {
    hide BelongsTo;
    var none: map<string, Json>, noGroups: map<ID, seq<Json>>, noMembers: map<ID, seq<string>> := map[], map[], map[];
    assert Grouped(none, nodes, collections, noGroups, noMembers);
    GroupOneMore(none, nodes, collections, noGroups, noMembers, name, ocds[name], id);
    groups := noGroups[id := GroupOf(noGroups, id) + [ocds[name]]];
    members := noMembers[id := GroupOf(noMembers, id) + [name]];
    groups, members := GroupRest(ocds, nodes, collections, none[name := ocds[name]], groups, members, id, ocds.Keys - {name});
  }

  lemma {:induction false} GroupRest(ocds: map<string, Json>, nodes: set<ID>, collections: set<ID>,
                                        done: map<string, Json>, before: map<ID, seq<Json>>, inBefore: map<ID, seq<string>>,
                                        id: ID, todo: set<string>)
    returns (groups: map<ID, seq<Json>>, members: map<ID, seq<string>>)
    requires Grouped(done, nodes, collections, before, inBefore) && id in before && before[id] != []
    requires todo <= ocds.Keys && done == map n | n in ocds && n !in todo :: ocds[n]
    ensures Grouped(ocds, nodes, collections, groups, members)
    ensures id in groups && groups[id] != [] && groups[id][0] == before[id][0]
    decreases todo
  {
    hide BelongsTo, Grouped;
    groups, members := before, inBefore;
    if todo == {} {
      assert done == ocds;
    } else {
      var name :| name in todo;
      if owner :| BelongsTo(name, HasIndex(ocds[name]), nodes, collections, owner) {
        GroupOneMore(done, nodes, collections, before, inBefore, name, ocds[name], owner);
        groups := groups[owner := GroupOf(groups, owner) + [ocds[name]]];
        members := members[owner := GroupOf(members, owner) + [name]];
      } else {
        GroupNoMore(done, nodes, collections, before, inBefore, name, ocds[name]);
      }
      groups, members := GroupRest(ocds, nodes, collections, done[name := ocds[name]], groups, members, id, todo - {name});
    }
  }
}
