/** The order that repeatedly takes the least ready vertex, and why it is the least order of all. */
module Orders {
  import opened Sets
  import opened Graphs
  import Text

  datatype Item = Item(id: ID, order: int)

  predicate ItemLess(a: Item, b: Item) {
    if a.order != b.order then a.order < b.order else Text.Less(a.id, b.id)
  }

  predicate Before(ord: map<ID, int>, a: ID, b: ID)
    requires a in ord && b in ord
  {
    ItemLess(Item(a, ord[a]), Item(b, ord[b]))
  }

  /** Vertices not yet placed whose dependencies are all placed. */
  function Available(g: Graph, placed: set<ID>): set<ID> {
    set v | v in g && v !in placed && g[v] <= placed
  }

  lemma AvailableVertices(g: Graph, placed: set<ID>)
    ensures Available(g, placed) <= g.Keys
  {
  }

  lemma ItemsEmpty(ord: map<ID, int>, vs: set<ID>)
    requires vs <= ord.Keys
    ensures Items(ord, vs) == {} ==> vs == {}
  {
    forall v | v in vs ensures Item(v, ord[v]) in Items(ord, vs) {
    }
  }

  function Items(ord: map<ID, int>, vs: set<ID>): set<Item> {
    set v | v in vs && v in ord :: Item(v, ord[v])
  }

  /** Each vertex is the least one available when it is placed. */
  predicate Greedy(g: Graph, ord: map<ID, int>, s: seq<ID>)
    requires ord.Keys == g.Keys
  {
    forall k {:trigger s[k]} | 0 <= k < |s| ::
      && s[k] in Available(g, Elems(s[..k]))
      && forall v | v in Available(g, Elems(s[..k])) :: v == s[k] || Before(ord, s[k], v)
  }

  /** Lower orders come first; of the same order, ids in alphabetical order. */
  predicate Precedes(ord: map<ID, int>, a: ID, b: ID)
    requires a in ord && b in ord
  {
    ord[a] < ord[b] || (ord[a] == ord[b] && Text.Precedes(a, b))
  }

  /** Wherever a vertex is placed, it precedes all others that could have been placed there. */
  predicate Foremost(g: Graph, ord: map<ID, int>, s: seq<ID>)
    requires ord.Keys == g.Keys
  {
    forall k, v | 0 <= k < |s| && v in g && v !in s[..k] && (forall d | d in g[v] :: d in s[..k]) ::
      v == s[k] || (s[k] in g && Precedes(ord, s[k], v))
  }

  lemma GreedyIsForemost(g: Graph, ord: map<ID, int>, s: seq<ID>)
    requires ord.Keys == g.Keys && Greedy(g, ord, s)
    ensures Foremost(g, ord, s)
  {
    forall k, v | 0 <= k < |s| && v in g && v !in s[..k] && (forall d | d in g[v] :: d in s[..k])
      ensures v == s[k] || (s[k] in g && Precedes(ord, s[k], v))
    {
      assert s[k] in Available(g, Elems(s[..k])) && v in Available(g, Elems(s[..k]));
      Text.LessIsPrecedes(s[k], v);
    }
  }

  lemma ForemostAt(g: Graph, ord: map<ID, int>, s: seq<ID>, k: nat, v: ID)
    requires ord.Keys == g.Keys && Foremost(g, ord, s) && k < |s| && v in g && v !in s[..k] && g[v] == {}
    ensures v == s[k] || (s[k] in g && Precedes(ord, s[k], v))
  {
  }

  /** Where nothing depends on anything, vertices come in ascending order. */
  lemma WithoutEdgesAscending(g: Graph, ord: map<ID, int>, s: seq<ID>)
    requires ord.Keys == g.Keys && Foremost(g, ord, s) && IsTopological(g, s) && forall v | v in g :: g[v] == {}
    ensures forall i, j | 0 <= i < j < |s| :: s[i] in g && s[j] in g && ord[s[i]] <= ord[s[j]]
  {
    hide Text.Precedes, Greedy, Foremost, DepsFirst;
    forall i, j | 0 <= i < j < |s| ensures s[i] in g && s[j] in g && ord[s[i]] <= ord[s[j]] {
      assert s[i] in Elems(s) && s[j] in Elems(s);
      assert s[j] !in s[..i];
      ForemostAt(g, ord, s, i, s[j]);
    }
  }

  /** At the first place where they differ, `s` has the lesser vertex. */
  predicate LexBefore(ord: map<ID, int>, s: seq<ID>, t: seq<ID>)
    requires Elems(s) <= ord.Keys && Elems(t) <= ord.Keys
  {
    exists k {:trigger s[k], t[k]} | 0 <= k < |s| && k < |t| :: s[..k] == t[..k] && Precedes(ord, s[k], t[k])
  }

  /** The greedy order precedes every other order that puts dependencies first. */
  lemma GreedyIsLeast(g: Graph, ord: map<ID, int>, s: seq<ID>, t: seq<ID>)
    requires ord.Keys == g.Keys
    requires IsTopological(g, s) && Greedy(g, ord, s)
    requires IsTopological(g, t)
    ensures s == t || LexBefore(ord, s, t)
  {
    hide Text.Precedes;
    GreedyIsForemost(g, ord, s);
    DistinctSize(s);
    DistinctSize(t);
    if s != t {
      var k := FirstDifference(s, t);
      assert t[k] in Available(g, Elems(s[..k])) by {
        assert t[k] !in t[..k];
        assert forall d | d in g[t[k]] :: d in t[..k];
      }
    }
  }

  lemma FirstDifference(s: seq<ID>, t: seq<ID>) returns (k: nat)
    requires |s| == |t| && s != t
    ensures k < |s| && s[..k] == t[..k] && s[k] != t[k]
  {
    assert exists i :: 0 <= i < |s| && s[i] != t[i];
    k := 0;
    while s[k] == t[k]
      invariant k < |s| && s[..k] == t[..k]
      invariant exists i :: k <= i < |s| && s[i] != t[i]
      decreases |s| - k
    {
      k := k + 1;
    }
  }

  /** Hence there is one such order, whatever order the maps were walked in. */
  lemma GreedyUnique(g: Graph, ord: map<ID, int>, s: seq<ID>, t: seq<ID>)
    requires ord.Keys == g.Keys
    requires IsTopological(g, s) && Greedy(g, ord, s)
    requires IsTopological(g, t) && Greedy(g, ord, t)
    ensures s == t
  {
    DistinctSize(s);
    DistinctSize(t);
    if s != t {
      var k := FirstDifference(s, t);
      assert Before(ord, s[k], t[k]) && Before(ord, t[k], s[k]);
      BeforeAsymmetric(ord, s[k], t[k]);
    }
  }

  lemma BeforeAsymmetric(ord: map<ID, int>, a: ID, b: ID)
    requires a in ord && b in ord && Before(ord, a, b)
    ensures !Before(ord, b, a)
  {
    if ord[a] == ord[b] {
      Text.LessAsymmetric(a, b);
    }
  }

  lemma ItemLessTransitive(a: Item, b: Item, c: Item)
    requires ItemLess(a, b) && ItemLess(b, c)
    ensures ItemLess(a, c)
  {
    if a.order == b.order == c.order {
      Text.LessTransitive(a.id, b.id, c.id);
    }
  }

  /** The comparison is total, and it is by order and then alphabetical. */
  lemma ItemLessTotal(a: Item, b: Item)
    ensures a == b || ItemLess(a, b) || ItemLess(b, a)
    ensures ItemLess(a, b) <==> a.order < b.order || (a.order == b.order && Text.Precedes(a.id, b.id))
  {
    Text.LessTotal(a.id, b.id);
    Text.LessIsPrecedes(a.id, b.id);
  }

  /** The priority queue that `container/heap` provides over `topoHeap`, by its contract. */
  method PopLeast(items: set<Item>) returns (least: Item, rest: set<Item>)
    requires items != {}
    ensures least in items && rest == items - {least}
    ensures forall x | x in items :: x == least || ItemLess(least, x)
    ensures forall x | x in items ::
              x == least || least.order < x.order || (least.order == x.order && Text.Precedes(least.id, x.id))
  {
    least :| least in items;
    var todo := items - {least};
    while todo != {}
      invariant least in items && todo <= items
      invariant forall x | x in items - todo :: x == least || ItemLess(least, x)
      decreases todo
    {
      var x :| x in todo;
      todo := todo - {x};
      ItemLessTotal(x, least);
      if ItemLess(x, least) {
        forall y | y in items - todo ensures y == x || ItemLess(x, y) {
          if y != x && y != least {
            ItemLessTransitive(x, least, y);
          }
        }
        least := x;
      }
    }
    rest := items - {least};
    forall x | x in items ensures ItemLess(least, x) ==> least.order < x.order || (least.order == x.order && Text.Precedes(least.id, x.id)) {
      ItemLessTotal(least, x);
    }
  }

  /** The vertices that depend on `d`. */
  function Dependents(g: Graph, d: ID): set<ID> {
    set v | v in g && d in g[v]
  }

  /** Vertices of `ws` whose dependencies are all placed. */
  function Released(g: Graph, placed: set<ID>, ws: set<ID>): set<ID> {
    set v | v in ws && v in g && g[v] <= placed
  }

  /** Placed vertices have their dependencies placed. */
  predicate DownClosed(g: Graph, placed: set<ID>) {
    forall v | v in placed && v in g :: g[v] <= placed
  }

  lemma AvailableAfter(g: Graph, before: set<ID>, v: ID)
    requires v in Available(g, before) && DownClosed(g, before)
    ensures Available(g, before + {v}) == Available(g, before) - {v} + Released(g, before + {v}, Dependents(g, v))
  {
    forall u | u in Released(g, before + {v}, Dependents(g, v)) ensures u in Available(g, before + {v}) {
      assert v in g[u];
    }
  }

  /** How many dependencies of `v` are still to be placed. */
  function Unplaced(g: Graph, v: ID, placed: set<ID>): nat
    requires v in g
  {
    |g[v] - placed|
  }

  lemma UnplacedZero(g: Graph, v: ID, placed: set<ID>)
    requires v in g
    ensures Unplaced(g, v, placed) == 0 <==> g[v] <= placed
  {
    if g[v] <= placed {
      assert g[v] - placed == {};
    } else {
      var d :| d in g[v] && d !in placed;
      assert d in g[v] - placed;
    }
  }

  lemma UnplacedInitially(g: Graph, v: ID)
    requires v in g
    ensures Unplaced(g, v, {}) == |g[v]|
  {
    assert g[v] - {} == g[v];
  }

  lemma UnplacedOther(g: Graph, before: set<ID>, d: ID)
    ensures forall v | v in g && v !in Dependents(g, d) :: Unplaced(g, v, before + {d}) == Unplaced(g, v, before)
  {
    forall v | v in g && v !in Dependents(g, d) ensures Unplaced(g, v, before + {d}) == Unplaced(g, v, before) {
      assert g[v] - (before + {d}) == g[v] - before;
    }
  }

  /** One dependent of the vertex placed last has one dependency less to wait for. */
  lemma OneDependencyLess(g: Graph, before: set<ID>, v: ID, w: ID)
    requires w in Dependents(g, v) && v !in before
    ensures w !in Available(g, before)
    ensures Unplaced(g, w, before + {v}) == Unplaced(g, w, before) - 1
    ensures Unplaced(g, w, before + {v}) == 0 <==> g[w] <= before + {v}
  {
    RemoveOne(g[w] - before, v);
    assert g[w] - (before + {v}) == g[w] - before - {v};
    UnplacedZero(g, w, before + {v});
  }

  lemma GreedyDepsFirst(g: Graph, ord: map<ID, int>, s: seq<ID>)
    requires ord.Keys == g.Keys && Greedy(g, ord, s)
    ensures DepsFirst(g, s) && Distinct(s)
  {
    forall i, j | 0 <= i < j < |s| ensures s[i] != s[j] {
      assert s[j] in Available(g, Elems(s[..j])) && s[i] in s[..j];
    }
  }

  lemma DepsFirstDownClosed(g: Graph, s: seq<ID>)
    requires DepsFirst(g, s)
    ensures DownClosed(g, Elems(s))
  {
    forall v, d | v in Elems(s) && d in g[v] ensures d in Elems(s) {
      var i :| 0 <= i < |s| && s[i] == v;
      assert d in s[..i];
    }
  }

  /** A vertex is always available until every vertex is placed, if the graph can be ordered at all. */
  lemma NothingAvailable(g: Graph, placed: set<ID>, schedule: seq<ID>)
    requires IsTopological(g, schedule)
    ensures Available(g, placed) == {} ==> g.Keys <= placed
  {
    if w :| w in g && w !in placed {
      assert w in Elems(schedule);
      var k := 0;
      while schedule[k] in placed
        invariant 0 <= k < |schedule| && Elems(schedule[..k]) <= placed
        invariant exists i :: k <= i < |schedule| && schedule[i] == w
        decreases |schedule| - k
      {
        assert schedule[..k + 1] == schedule[..k] + [schedule[k]];
        k := k + 1;
      }
      assert schedule[k] in Available(g, placed);
    }
  }

  lemma CompleteOrder(g: Graph, ord: map<ID, int>, order: seq<ID>)
    requires ord.Keys == g.Keys && Greedy(g, ord, order)
    ensures |order| == |g.Keys| <==> g.Keys <= Elems(order)
    ensures |order| == |g.Keys| <==> IsTopological(g, order)
  {
    GreedyDepsFirst(g, ord, order);
    DistinctSize(order);
    assert Elems(order) <= g.Keys;
    SubsetSize(Elems(order), g.Keys);
    if g.Keys <= Elems(order) {
      assert Elems(order) == g.Keys;
    }
  }

  lemma GreedyStart(g: Graph, ord: map<ID, int>)
    requires ord.Keys == g.Keys
    ensures Greedy(g, ord, [])
  {
  }

  /** Placing the least available vertex keeps the order greedy. */
  lemma TakeLeast(g: Graph, ord: map<ID, int>, placed: seq<ID>, least: Item)
    requires ord.Keys == g.Keys && Greedy(g, ord, placed)
    requires least in Items(ord, Available(g, Elems(placed)))
    requires forall x | x in Items(ord, Available(g, Elems(placed))) :: x == least || ItemLess(least, x)
    ensures Greedy(g, ord, placed + [least.id])
    ensures Elems(placed + [least.id]) == Elems(placed) + {least.id}
    ensures least.id in Available(g, Elems(placed)) && DownClosed(g, Elems(placed))
    ensures g.Keys - Elems(placed + [least.id]) < g.Keys - Elems(placed)
  {
    var s := placed + [least.id];
    forall k | 0 <= k < |s|
      ensures s[k] in Available(g, Elems(s[..k]))
      ensures forall v | v in Available(g, Elems(s[..k])) :: v == s[k] || Before(ord, s[k], v)
    {
      assert s[..k] == placed[..k];
      if k == |placed| {
        assert s[..k] == placed;
        forall v | v in Available(g, Elems(placed)) ensures v == s[k] || Before(ord, s[k], v) {
          assert Item(v, ord[v]) in Items(ord, Available(g, Elems(placed)));
        }
      } else {
        assert s[k] == placed[k];
      }
    }
    GreedyDepsFirst(g, ord, placed);
    DepsFirstDownClosed(g, placed);
    assert least.id in g.Keys - Elems(placed) && least.id !in g.Keys - Elems(s);
  }
}
