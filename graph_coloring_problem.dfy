/**
 * The graph-colouring problem (local_search/problems/graph_coloring_problem/problem.py):
 * the adjacency built from the edge list, the greedy initial colouring and the cost.
 *
 * The adjacency is a Python dict; its iteration order is the order in which vertices
 * were first inserted, which the greedy colouring depends on, so the model keeps
 * that order next to the map.
 */
module GraphColoringProblem {
  import opened Wrappers
  import opened GraphColoringState
  import opened GraphColoringGoals
  import opened GraphColoringMoves

  // ------------------------------------------------------------------ _create_graph

  /** Add `b` to the neighbours of `a`, creating the entry for `a` if needed. */
  function AddArc(g: Graph, a: int, b: int): Graph {
    if a in g then g[a := g[a] + {b}] else g[a := {b}]
  }

  /** The dict `_create_graph` builds from `edges`. */
  function GraphOf(edges: seq<Edge>): Graph {
    if edges == [] then map[]
    else
      var e := edges[|edges| - 1];
      AddArc(AddArc(GraphOf(edges[..|edges| - 1]), e.start, e.end), e.end, e.start)
  }

  /** The insertion order of that dict's keys. */
  function OrderOf(edges: seq<Edge>): seq<int> {
    if edges == [] then []
    else
      var front := edges[..|edges| - 1];
      var e := edges[|edges| - 1];
      var g := GraphOf(front);
      var o := if e.start in g then OrderOf(front) else OrderOf(front) + [e.start];
      if e.end in AddArc(g, e.start, e.end) then o else o + [e.end]
  }

  /** `_create_graph`. */
  method CreateGraph(edges: seq<Edge>) returns (graph: Graph, order: seq<int>)
    ensures graph == GraphOf(edges) && order == OrderOf(edges)
  {
    graph, order := map[], [];
    for i := 0 to |edges|
      invariant graph == GraphOf(edges[..i]) && order == OrderOf(edges[..i])
    {
      assert edges[..i + 1][..i] == edges[..i];
      var e := edges[i];
      if e.start in graph {
        graph := graph[e.start := graph[e.start] + {e.end}];
      } else {
        graph := graph[e.start := {e.end}];
        order := order + [e.start];
      }
      if e.end in graph {
        graph := graph[e.end := graph[e.end] + {e.start}];
      } else {
        graph := graph[e.end := {e.start}];
        order := order + [e.end];
      }
    }
    assert edges[..|edges|] == edges;
  }

  /** Some edge joins `v` and `u`, in either direction. */
  predicate Linked(edges: seq<Edge>, v: int, u: int) {
    exists j :: 0 <= j < |edges| &&
      ((edges[j].start == v && edges[j].end == u) || (edges[j].start == u && edges[j].end == v))
  }

  /** Some edge has `v` as an endpoint. */
  predicate Endpoint(edges: seq<Edge>, v: int) {
    exists j :: 0 <= j < |edges| && (edges[j].start == v || edges[j].end == v)
  }

  /** An endpoint of `edges` is an endpoint of all but the last edge or of the last edge. */
  lemma EndpointSnoc(edges: seq<Edge>)
    requires edges != []
    ensures var front, e := edges[..|edges| - 1], edges[|edges| - 1];
      forall v :: Endpoint(edges, v) <==> Endpoint(front, v) || v == e.start || v == e.end
  {
    var front, e := edges[..|edges| - 1], edges[|edges| - 1];
    forall v
      ensures Endpoint(edges, v) <==> Endpoint(front, v) || v == e.start || v == e.end
    {
      if Endpoint(edges, v) {
        var j :| 0 <= j < |edges| && (edges[j].start == v || edges[j].end == v);
        if j < |front| {
          assert front[j] == edges[j];
        }
      }
      if Endpoint(front, v) {
        var j :| 0 <= j < |front| && (front[j].start == v || front[j].end == v);
        assert edges[j] == front[j];
      }
    }
  }

  /** Two vertices linked by `edges` are linked by all but the last edge or by the last edge. */
  lemma LinkedSnoc(edges: seq<Edge>)
    requires edges != []
    ensures var front, e := edges[..|edges| - 1], edges[|edges| - 1];
      forall v, u :: Linked(edges, v, u) <==>
        Linked(front, v, u) || (v == e.start && u == e.end) || (v == e.end && u == e.start)
  {
    var front, e := edges[..|edges| - 1], edges[|edges| - 1];
    forall v, u
      ensures Linked(edges, v, u) <==>
        Linked(front, v, u) || (v == e.start && u == e.end) || (v == e.end && u == e.start)
    {
      if Linked(edges, v, u) {
        var j :| 0 <= j < |edges| &&
          ((edges[j].start == v && edges[j].end == u) || (edges[j].start == u && edges[j].end == v));
        if j < |front| {
          assert front[j] == edges[j];
        }
      }
      if Linked(front, v, u) {
        var j :| 0 <= j < |front| &&
          ((front[j].start == v && front[j].end == u) || (front[j].start == u && front[j].end == v));
        assert edges[j] == front[j];
      }
    }
  }

  /** The keys of the dict are the endpoints of the edges. */
  lemma {:induction false} GraphOfKeys(edges: seq<Edge>)
    ensures forall v :: v in GraphOf(edges) <==> Endpoint(edges, v)
  {
    if edges != [] {
      GraphOfKeys(edges[..|edges| - 1]);
      EndpointSnoc(edges);
    }
  }

  /** u is a neighbour of v exactly when an edge joins them. */
  lemma {:induction false} GraphOfNeighbours(edges: seq<Edge>)
    ensures forall v, u :: v in GraphOf(edges) ==> (u in GraphOf(edges)[v] <==> Linked(edges, v, u))
  {
    if edges != [] {
      var front := edges[..|edges| - 1];
      GraphOfNeighbours(front);
      GraphOfKeys(front);
      LinkedSnoc(edges);
      forall v, u | Linked(front, v, u)
        ensures v in GraphOf(front)
      {
        var j :| 0 <= j < |front| &&
          ((front[j].start == v && front[j].end == u) || (front[j].start == u && front[j].end == v));
        assert Endpoint(front, v);
      }
    }
  }

  /** The insertion order lists every key of the dict exactly once. */
  lemma {:induction false} OrderOfKeys(edges: seq<Edge>)
    ensures forall v :: v in GraphOf(edges) <==> v in OrderOf(edges)
    ensures forall i, j :: 0 <= i < j < |OrderOf(edges)| ==> OrderOf(edges)[i] != OrderOf(edges)[j]
  {
    if edges != [] {
      OrderOfKeys(edges[..|edges| - 1]);
    }
  }

  /**
   * The keys are the endpoints, u is a neighbour of v exactly when an edge joins them
   * (so the adjacency is symmetric), and the order lists every key once.
   */
  lemma GraphOfMeaning(edges: seq<Edge>)
    ensures forall v :: v in GraphOf(edges) <==> Endpoint(edges, v)
    ensures forall v, u :: v in GraphOf(edges) ==> (u in GraphOf(edges)[v] <==> Linked(edges, v, u))
    ensures forall v :: v in GraphOf(edges) <==> v in OrderOf(edges)
    ensures forall i, j :: 0 <= i < j < |OrderOf(edges)| ==> OrderOf(edges)[i] != OrderOf(edges)[j]
  {
    GraphOfKeys(edges);
    GraphOfNeighbours(edges);
    OrderOfKeys(edges);
  }

  /** Symmetry: u is a neighbour of v exactly when v is a neighbour of u. */
  lemma GraphOfSymmetric(edges: seq<Edge>, v: int, u: int)
    requires v in GraphOf(edges) && u in GraphOf(edges)
    ensures u in GraphOf(edges)[v] <==> v in GraphOf(edges)[u]
  {
    GraphOfMeaning(edges);
  }

  /** `n_vertices = len(self.graph)`: the number of distinct endpoints. */
  lemma VertexCount(edges: seq<Edge>)
    ensures |GraphOf(edges).Keys| == |OrderOf(edges)|
  {
    GraphOfMeaning(edges);
    DistinctSize(OrderOf(edges), GraphOf(edges).Keys);
  }

  lemma {:induction false} DistinctSize(s: seq<int>, keys: set<int>)
    requires forall i, j :: 0 <= i < j < |s| ==> s[i] != s[j]
    requires forall v :: v in keys <==> v in s
    ensures |keys| == |s|
  {
    if s != [] {
      var front := s[..|s| - 1];
      var x := s[|s| - 1];
      assert x in keys;
      assert x !in front;
      assert forall v :: v in keys - {x} <==> v in front by {
        assert forall v :: v in s <==> v in front || v == x;
      }
      DistinctSize(front, keys - {x});
      assert keys == (keys - {x}) + {x};
    } else {
      assert forall v :: v !in keys;
      assert keys == {};
    }
  }

  /** A subset is no larger than its superset. */
  lemma SubsetSize(a: set<int>, b: set<int>)
    requires a <= b
    ensures |a| <= |b|
  {
    assert b == a + (b - a);
  }

  /** n distinct keys taken from [0, n) are all of [0, n). */
  lemma KeysAreRange(keys: set<int>, n: nat)
    requires forall v :: v in keys ==> 0 <= v < n
    requires |keys| == n
    ensures forall v :: v in keys <==> 0 <= v < n
  {
    forall i | 0 <= i < n
      ensures i in keys
    {
      if i !in keys {
        SubsetSize(keys, Range(n) - {i});
        RangeSize(n);
        assert false;
      }
    }
  }

  // ------------------------------------------------------------------ _find_initial_solution

  /**
   * `available_colors` once the colours in `used` have been removed from
   * `range(lo, n)`: the colours in [lo, n) outside `used`, ascending.
   */
  function FreeFrom(lo: int, n: int, used: set<int>): (r: seq<int>)
    ensures forall c :: c in r <==> lo <= c < n && c !in used
    ensures forall i, j :: 0 <= i < j < |r| ==> r[i] < r[j]
    ensures forall i :: 0 <= i < |r| ==> lo <= r[i]
    decreases n - lo
  {
    if lo >= n then []
    else if lo in used then FreeFrom(lo + 1, n, used)
    else [lo] + FreeFrom(lo + 1, n, used)
  }

  /** `list.remove(x)`: drop the first occurrence of `x`. */
  function RemoveFirst(s: seq<int>, x: int): (r: seq<int>)
    requires x in s
    ensures multiset(r) == multiset(s) - multiset{x}
  {
    assert s == [s[0]] + s[1..];
    if s[0] == x then s[1..] else [s[0]] + RemoveFirst(s[1..], x)
  }

  /**
   * Removing a listed colour from the free colours, or skipping one that is not
   * listed, gives the free colours of the enlarged used set.
   */
  lemma {:induction false} FreeFromAdd(lo: int, n: int, used: set<int>, x: int)
    ensures x in FreeFrom(lo, n, used) ==>
      RemoveFirst(FreeFrom(lo, n, used), x) == FreeFrom(lo, n, used + {x})
    ensures x !in FreeFrom(lo, n, used) ==> FreeFrom(lo, n, used) == FreeFrom(lo, n, used + {x})
    decreases n - lo
  {
    if lo < n {
      FreeFromAdd(lo + 1, n, used, x);
      if lo !in used {
        FreeFromAddStep(lo, n, used, x);
      }
    }
  }

  /** The step of FreeFromAdd where `lo` is free: it heads the list. */
  lemma FreeFromAddStep(lo: int, n: int, used: set<int>, x: int)
    requires lo < n && lo !in used
    requires x in FreeFrom(lo + 1, n, used) ==>
      RemoveFirst(FreeFrom(lo + 1, n, used), x) == FreeFrom(lo + 1, n, used + {x})
    requires x !in FreeFrom(lo + 1, n, used) ==> FreeFrom(lo + 1, n, used) == FreeFrom(lo + 1, n, used + {x})
    ensures x in FreeFrom(lo, n, used) ==>
      RemoveFirst(FreeFrom(lo, n, used), x) == FreeFrom(lo, n, used + {x})
    ensures x !in FreeFrom(lo, n, used) ==> FreeFrom(lo, n, used) == FreeFrom(lo, n, used + {x})
  {
    var rest, rest' := FreeFrom(lo + 1, n, used), FreeFrom(lo + 1, n, used + {x});
    assert FreeFrom(lo, n, used) == [lo] + rest;
    if lo == x {
      assert FreeFrom(lo, n, used + {x}) == rest';
      assert x !in rest;
      RemoveHead(lo, rest);
    } else {
      assert FreeFrom(lo, n, used + {x}) == [lo] + rest';
      if x in rest {
        RemovePastHead(lo, rest, x);
      }
    }
  }

  /** Removing the head. */
  lemma RemoveHead(x: int, rest: seq<int>)
    ensures RemoveFirst([x] + rest, x) == rest
  {
    assert ([x] + rest)[1..] == rest;
  }

  /** Removing an element found after a different head keeps the head. */
  lemma RemovePastHead(h: int, rest: seq<int>, x: int)
    requires x != h && x in rest
    ensures RemoveFirst([h] + rest, x) == [h] + RemoveFirst(rest, x)
  {
    assert ([h] + rest)[1..] == rest;
  }

  /** Fewer than n used colours leave some colour of [0, n) free. */
  lemma FreeFromNonEmpty(n: nat, used: set<int>)
    requires |used| < n
    ensures FreeFrom(0, n, used) != []
  {
    if FreeFrom(0, n, used) == [] {
      assert Range(n) <= used;
      SubsetSize(Range(n), used);
      RangeSize(n);
    }
  }

  /** The colours the coloring gives to the neighbours in `nbrs` that it has a position for. */
  function NeighbourColours(col: Coloring, nbrs: set<int>): set<int> {
    set u | u in nbrs && InRange(u, |col|) :: col[Slot(u, |col|)].color
  }

  /** Each neighbour contributes at most one colour. */
  lemma {:induction false} NeighbourColoursSize(col: Coloring, nbrs: set<int>)
    ensures |NeighbourColours(col, nbrs)| <= |nbrs|
    decreases |nbrs|
  {
    if nbrs != {} {
      HasElement(nbrs);
      var x :| x in nbrs;
      var rest := nbrs - {x};
      NeighbourColoursSize(col, rest);
      if InRange(x, |col|) {
        assert NeighbourColours(col, nbrs) <= NeighbourColours(col, rest) + {col[Slot(x, |col|)].color};
        SubsetSize(NeighbourColours(col, nbrs), NeighbourColours(col, rest) + {col[Slot(x, |col|)].color});
      } else {
        assert NeighbourColours(col, nbrs) <= NeighbourColours(col, rest);
        SubsetSize(NeighbourColours(col, nbrs), NeighbourColours(col, rest));
      }
    }
  }

  /** One more neighbour, with a position, adds its colour. */
  lemma NeighbourColoursAdd(col: Coloring, nbrs: set<int>, u: int)
    requires InRange(u, |col|)
    ensures NeighbourColours(col, nbrs + {u}) == NeighbourColours(col, nbrs) + {col[Slot(u, |col|)].color}
  {
  }

  /** Every neighbour has a position in the coloring. */
  predicate AllInRange(nbrs: set<int>, n: int) {
    forall u :: u in nbrs ==> InRange(u, n)
  }

  /**
   * One pass of the outer loop for `vertex`: IndexError (None) when a neighbour or the
   * vertex has no position or no colour is left; otherwise the vertex gets the first
   * colour its neighbours do not use.
   */
  function Paint(graph: Graph, v: int, col: Coloring): Option<Coloring>
    requires v in graph
  {
    if !AllInRange(graph[v], |col|) then None
    else
      var free := FreeFrom(0, |col|, NeighbourColours(col, graph[v]));
      if free == [] || !InRange(v, |col|) then None
      else
        var i := Slot(v, |col|);
        Some(col[i := Vertex(col[i].idx, free[0])])
  }

  /** The outer loop over the remaining vertices in `order`, from `col`. */
  function GreedyFrom(graph: Graph, order: seq<int>, col: Coloring): Option<Coloring>
    requires forall j :: 0 <= j < |order| ==> order[j] in graph
  {
    if order == [] then Some(col)
    else
      match Paint(graph, order[0], col)
      case None => None
      case Some(next) => GreedyFrom(graph, order[1..], next)
  }

  /** Every vertex uncoloured (-1) except vertex 0, which has colour 0. */
  function Initial(n: nat): (r: Coloring)
    ensures |r| == n
  {
    seq(n, i => Vertex(i, if i == 0 then 0 else -1))
  }

  /**
   * `_find_initial_solution` over the dict `graph` whose keys are listed in `order`;
   * None stands for the IndexError raised when there are no vertices.
   */
  function Greedy(graph: Graph, order: seq<int>): Option<Coloring>
    requires forall j :: 0 <= j < |order| ==> order[j] in graph
  {
    if |order| == 0 then None else GreedyFrom(graph, order, Initial(|order|))
  }

  /**
   * The inner loop: remove from `range(n)` the colour of every neighbour, in whatever
   * order the set yields them; None when a neighbour has no position.
   */
  method FreeColours(col: Coloring, nbrs: set<int>) returns (r: Option<seq<int>>)
    ensures r == if AllInRange(nbrs, |col|) then Some(FreeFrom(0, |col|, NeighbourColours(col, nbrs))) else None
  {
    var n := |col|;
    var available := FreeFrom(0, n, {});
    var remaining := nbrs;
    ghost var seen: set<int> := {};
    assert NeighbourColours(col, {}) == {};
    while remaining != {}
      invariant remaining == nbrs - seen && seen <= nbrs
      invariant AllInRange(seen, n)
      invariant available == FreeFrom(0, n, NeighbourColours(col, seen))
      decreases |remaining|
    {
      HasElement(remaining);
      var u :| u in remaining;
      TakeOne(nbrs, seen, u);
      if !InRange(u, n) {
        return None;
      }
      var c := col[Slot(u, n)].color;
      NeighbourColoursAdd(col, seen, u);
      FreeFromAdd(0, n, NeighbourColours(col, seen), c);
      if c in available {
        available := RemoveFirst(available, c);
      }
      remaining := remaining - {u};
      seen := seen + {u};
    }
    assert seen == nbrs;
    return Some(available);
  }

  /** `_find_initial_solution`. */
  method FindInitialSolution(graph: Graph, order: seq<int>) returns (r: Option<Coloring>)
    requires forall j :: 0 <= j < |order| ==> order[j] in graph
    ensures r == Greedy(graph, order)
  {
    var n := |order|;
    if n == 0 {
      return None;
    }
    var coloring := seq(n, i => Vertex(i, -1));
    coloring := coloring[0 := Vertex(coloring[0].idx, 0)];
    assert coloring == Initial(n);
    for k := 0 to n
      invariant |coloring| == n
      invariant GreedyFrom(graph, order[k..], coloring) == Greedy(graph, order)
    {
      var v := order[k];
      assert order[k..] == [v] + order[k + 1..];
      var available := FreeColours(coloring, graph[v]);
      if available == None || available.value == [] || !InRange(v, n) {
        return None;
      }
      var i := Slot(v, n);
      coloring := coloring[i := Vertex(coloring[i].idx, available.value[0])];
    }
    return Some(coloring);
  }

  // ------------------------------------------------------------------ what the greedy pass guarantees

  /**
   * A successful pass for `v` changes only the entry of `v`, which gets the smallest
   * colour that none of its neighbours has.
   */
  lemma PaintSmallest(graph: Graph, v: int, col: Coloring)
    requires v in graph && Paint(graph, v, col).Some?
    ensures var r := Paint(graph, v, col).value;
      var i := Slot(v, |col|);
      var used := NeighbourColours(col, graph[v]);
      |r| == |col| && 0 <= i < |col| && r[i].idx == col[i].idx &&
      (forall j :: 0 <= j < |col| && j != i ==> r[j] == col[j]) &&
      0 <= r[i].color < |col| && r[i].color !in used &&
      (forall c :: 0 <= c < r[i].color ==> c in used)
  {
    var used := NeighbourColours(col, graph[v]);
    var free := FreeFrom(0, |col|, used);
    assert free[0] in free;
    forall c | 0 <= c < free[0]
      ensures c in used
    {
      if c !in used {
        assert false;
      }
    }
  }

  /** Vertices are 0 .. n-1, no vertex is its own neighbour, and adjacency is symmetric. */
  predicate Simple(graph: Graph, n: nat) {
    forall v :: v in graph ==>
      0 <= v < n && v !in graph[v] && forall u :: u in graph[v] ==> u in graph && v in graph[u]
  }

  /** Adjacent vertices among `done` have different colours. */
  predicate ProperOn(graph: Graph, col: Coloring, done: seq<int>) {
    forall v, u ::
      (v in done && u in done && v in graph && u in graph[v] && 0 <= v < |col| && 0 <= u < |col|) ==>
        col[v].color != col[u].color
  }

  /** Position i holds vertex i, coloured -1 (not yet) or with a colour in [0, n). */
  predicate Partial(col: Coloring, n: nat) {
    |col| == n && forall i :: 0 <= i < n ==> col[i].idx == i && -1 <= col[i].color < n
  }

  /** A vertex of a simple graph has at most n - 1 neighbours. */
  lemma NeighbourCount(graph: Graph, n: nat, v: int)
    requires Simple(graph, n) && v in graph
    ensures |graph[v]| < n
  {
    assert graph[v] <= Range(n) - {v};
    SubsetSize(graph[v], Range(n) - {v});
    RangeSize(n);
  }

  /** On a simple graph, painting a vertex from a partial colouring succeeds. */
  lemma PaintSucceeds(graph: Graph, n: nat, w: int, col: Coloring)
    requires Simple(graph, n) && w in graph && Partial(col, n)
    ensures Paint(graph, w, col).Some?
  {
    NeighbourCount(graph, n, w);
    NeighbourColoursSize(col, graph[w]);
    FreeFromNonEmpty(n, NeighbourColours(col, graph[w]));
  }

  /**
   * Painting `w` keeps the colouring partial, colours `w`, and keeps adjacent painted
   * vertices apart, `w` now among them.
   */
  lemma PaintProper(graph: Graph, n: nat, w: int, col: Coloring, done: seq<int>)
    requires Simple(graph, n) && w in graph && Partial(col, n)
    requires forall v :: v in done ==> 0 <= v < n && col[v].color >= 0
    requires ProperOn(graph, col, done)
    ensures Paint(graph, w, col).Some?
    ensures var next := Paint(graph, w, col).value;
      Partial(next, n) && ProperOn(graph, next, done + [w]) &&
      forall v :: v in done + [w] ==> 0 <= v < n && next[v].color >= 0
  {
    PaintSucceeds(graph, n, w, col);
    PaintSmallest(graph, w, col);
    var next := Paint(graph, w, col).value;
    var done' := done + [w];
    forall v, u | v in done' && u in done' && v in graph && u in graph[v] && 0 <= v < n && 0 <= u < n
      ensures next[v].color != next[u].color
    {
      if v == w {
        assert u != w && u in graph[w];
        assert col[u].color in NeighbourColours(col, graph[w]);
      } else if u == w {
        assert v in graph[w];
        assert col[v].color in NeighbourColours(col, graph[w]);
      }
    }
  }

  /**
   * On a simple graph every pass succeeds, and once painted, adjacent vertices keep
   * different colours: painting a vertex again picks a colour none of its neighbours has.
   */
  lemma {:induction false} GreedyFromProper(graph: Graph, n: nat, order: seq<int>, col: Coloring, done: seq<int>)
    requires Simple(graph, n) && forall j :: 0 <= j < |order| ==> order[j] in graph
    requires Partial(col, n)
    requires forall v :: v in done ==> 0 <= v < n && col[v].color >= 0
    requires ProperOn(graph, col, done)
    ensures GreedyFrom(graph, order, col).Some?
    ensures var r := GreedyFrom(graph, order, col).value;
      Partial(r, n) && ProperOn(graph, r, done + order) &&
      forall v :: v in done + order ==> 0 <= v < n && r[v].color >= 0
    decreases |order|
  {
    if order == [] {
      assert done + order == done;
    } else {
      var w := order[0];
      PaintProper(graph, n, w, col, done);
      var next := Paint(graph, w, col).value;
      GreedyFromProper(graph, n, order[1..], next, done + [w]);
      assert done + [w] + order[1..] == done + order;
    }
  }

  /**
   * For the dict of a simple graph on vertices 0 .. n-1 (n > 0), `_find_initial_solution`
   * succeeds, gives every vertex a colour in [0, n) and adjacent vertices different colours.
   */
  lemma GreedyProper(graph: Graph, order: seq<int>)
    requires |order| > 0 && Simple(graph, |order|)
    requires forall j :: 0 <= j < |order| ==> order[j] in graph
    requires forall v :: v in graph ==> v in order
    requires forall i, j :: 0 <= i < j < |order| ==> order[i] != order[j]
    ensures Greedy(graph, order).Some?
    ensures var r := Greedy(graph, order).value;
      |r| == |order| &&
      (forall i :: 0 <= i < |r| ==> r[i].idx == i && 0 <= r[i].color < |r|) &&
      (forall v, u :: v in graph && u in graph[v] ==> r[v].color != r[u].color)
  {
    var n := |order|;
    assert forall v :: v in graph.Keys <==> 0 <= v < n by {
      DistinctSize(order, graph.Keys);
      KeysAreRange(graph.Keys, n);
    }
    var col0 := Initial(n);
    assert Partial(col0, n) && ProperOn(graph, col0, []);
    GreedyFromProper(graph, n, order, col0, []);
    assert [] + order == order;
    assert Greedy(graph, order) == GreedyFrom(graph, order, col0);
    ProperEverywhere(graph, n, order, Greedy(graph, order).value);
  }

  /** Painted and proper on every vertex of the graph, when the vertices are 0 .. n-1. */
  lemma ProperEverywhere(graph: Graph, n: nat, order: seq<int>, r: Coloring)
    requires Simple(graph, n) && Partial(r, n) && ProperOn(graph, r, order)
    requires forall v :: v in order ==> 0 <= v < n && r[v].color >= 0
    requires forall v :: v in graph.Keys <==> 0 <= v < n
    requires forall v :: v in graph ==> v in order
    ensures forall i :: 0 <= i < |r| ==> r[i].idx == i && 0 <= r[i].color < |r|
    ensures forall v, u :: v in graph && u in graph[v] ==> r[v].color != r[u].color
  {
    forall i | 0 <= i < n
      ensures 0 <= r[i].color
    {
      assert i in graph.Keys;
    }
    forall v, u | v in graph && u in graph[v]
      ensures r[v].color != r[u].color
    {
      assert u in graph;
    }
  }



  /**
   * Edges that join distinct vertices numbered 0 .. n-1, n the number of endpoints,
   * give a simple graph.
   */
  lemma GraphOfSimple(edges: seq<Edge>)
    requires forall j :: 0 <= j < |edges| ==> edges[j].start != edges[j].end
    requires forall j :: 0 <= j < |edges| ==>
      0 <= edges[j].start < |OrderOf(edges)| && 0 <= edges[j].end < |OrderOf(edges)|
    ensures Simple(GraphOf(edges), |OrderOf(edges)|)
  {
    var graph, n := GraphOf(edges), |OrderOf(edges)|;
    GraphOfMeaning(edges);
    forall v | v in graph
      ensures 0 <= v < n && v !in graph[v] && forall u :: u in graph[v] ==> u in graph && v in graph[u]
    {
      assert Endpoint(edges, v);
      assert !Linked(edges, v, v);
      forall u | u in graph[v]
        ensures u in graph && v in graph[u]
      {
        assert Linked(edges, v, u);
        var j :| 0 <= j < |edges| &&
          ((edges[j].start == v && edges[j].end == u) || (edges[j].start == u && edges[j].end == v));
        assert Endpoint(edges, u);
        assert Linked(edges, u, v);
      }
    }
  }

  /**
   * On edges that join distinct vertices numbered 0 .. n-1, the greedy colouring exists,
   * its colours and the edge endpoints are valid indices, and no edge is monochrome.
   */
  lemma GreedyOfEdges(edges: seq<Edge>)
    requires |edges| > 0
    requires forall j :: 0 <= j < |edges| ==> edges[j].start != edges[j].end
    requires forall j :: 0 <= j < |edges| ==>
      0 <= edges[j].start < |OrderOf(edges)| && 0 <= edges[j].end < |OrderOf(edges)|
    ensures forall j :: 0 <= j < |OrderOf(edges)| ==> OrderOf(edges)[j] in GraphOf(edges)
    ensures Greedy(GraphOf(edges), OrderOf(edges)).Some?
    ensures var col := Greedy(GraphOf(edges), OrderOf(edges)).value;
      var n := |OrderOf(edges)|;
      |col| == n && ColoursInRange(col, n) && EdgesInRange(edges, col) &&
      forall j :: 0 <= j < |edges| ==> !Monochrome(col, edges[j])
  {
    var graph, order := GraphOf(edges), OrderOf(edges);
    EdgesInGraph(edges);
    OrderOfKeys(edges);
    GraphOfSimple(edges);
    assert order[0] in order by {
      assert edges[0].start in graph;
    }
    GreedyProper(graph, order);
    EdgesProper(edges, graph, Greedy(graph, order).value, |order|);
  }

  /** Every edge is in the dict: its start is a key and its end a neighbour of the start. */
  lemma EdgesInGraph(edges: seq<Edge>)
    ensures forall j :: 0 <= j < |edges| ==>
      edges[j].start in GraphOf(edges) && edges[j].end in GraphOf(edges)[edges[j].start]
  {
    GraphOfKeys(edges);
    GraphOfNeighbours(edges);
    forall j | 0 <= j < |edges|
      ensures edges[j].start in GraphOf(edges) && edges[j].end in GraphOf(edges)[edges[j].start]
    {
      assert Endpoint(edges, edges[j].start);
      assert Linked(edges, edges[j].start, edges[j].end);
    }
  }

  /** A colouring that separates adjacent vertices leaves no edge monochrome. */
  lemma EdgesProper(edges: seq<Edge>, graph: Graph, col: Coloring, n: nat)
    requires |col| == n && forall i :: 0 <= i < n ==> 0 <= col[i].color < n
    requires forall j :: 0 <= j < |edges| ==> 0 <= edges[j].start < n && 0 <= edges[j].end < n
    requires forall j :: 0 <= j < |edges| ==> edges[j].start in graph && edges[j].end in graph[edges[j].start]
    requires forall v, u :: v in graph && u in graph[v] && 0 <= v < n && 0 <= u < n ==>
      col[v].color != col[u].color
    ensures ColoursInRange(col, n) && EdgesInRange(edges, col)
    ensures forall j :: 0 <= j < |edges| ==> !Monochrome(col, edges[j])
  {
  }


  /**
   * The initial solution of a problem whose edges join distinct vertices numbered
   * 0 .. n-1 has no bad edge, so its MinFeasible cost is minus the sum of the squared
   * class sizes.
   */
  lemma InitialSolutionFeasible(edges: seq<Edge>)
    requires |edges| > 0
    requires forall j :: 0 <= j < |edges| ==> edges[j].start != edges[j].end
    requires forall j :: 0 <= j < |edges| ==>
      0 <= edges[j].start < |OrderOf(edges)| && 0 <= edges[j].end < |OrderOf(edges)|
    ensures forall j :: 0 <= j < |OrderOf(edges)| ==> OrderOf(edges)[j] in GraphOf(edges)
    ensures Greedy(GraphOf(edges), OrderOf(edges)).Some?
    ensures var col := Greedy(GraphOf(edges), OrderOf(edges)).value;
      var n := |OrderOf(edges)|;
      ColoursInRange(col, n) && EdgesInRange(edges, col) &&
      BadOf(col, edges, n) == Zeros(n) &&
      MinFeasible.Objective(col, edges, n) == -SumSquares(ClassesOf(col, n))
  {
    GreedyOfEdges(edges);
    var n := |OrderOf(edges)|;
    var col := Greedy(GraphOf(edges), OrderOf(edges)).value;
    BadEdgesSum(col, edges, n);
    MinFeasibleWithoutBadEdges(col, edges, n);
  }

  // ------------------------------------------------------------------ Kempe moves keep feasibility

  /** The edges join distinct vertices numbered 0 .. n-1, n being the number of vertices. */
  predicate SimpleEdges(edges: seq<Edge>) {
    forall j :: 0 <= j < |edges| ==>
      edges[j].start != edges[j].end &&
      0 <= edges[j].start < |OrderOf(edges)| && 0 <= edges[j].end < |OrderOf(edges)|
  }

  /** No edge monochrome means adjacent vertices of the built graph differ in colour. */
  lemma EdgesSeparatedProper(edges: seq<Edge>, col: Coloring)
    requires forall j :: 0 <= j < |edges| ==> 0 <= edges[j].start < |col| && 0 <= edges[j].end < |col|
    requires forall j :: 0 <= j < |edges| ==> !Monochrome(col, edges[j])
    ensures Proper(GraphOf(edges), col)
  {
    GraphOfMeaning(edges);
    forall v, u | v in GraphOf(edges) && u in GraphOf(edges)[v] && 0 <= v < |col| && 0 <= u < |col| {
      LinkedColoursDiffer(edges, col, v, u);
    }
  }

  /** Two vertices joined by an edge that is not monochrome differ in colour. */
  lemma LinkedColoursDiffer(edges: seq<Edge>, col: Coloring, v: int, u: int)
    requires forall j :: 0 <= j < |edges| ==> 0 <= edges[j].start < |col| && 0 <= edges[j].end < |col|
    requires forall j :: 0 <= j < |edges| ==> !Monochrome(col, edges[j])
    requires Linked(edges, v, u) && 0 <= v < |col| && 0 <= u < |col|
    ensures col[v].color != col[u].color
  {
    var j :| 0 <= j < |edges| &&
      ((edges[j].start == v && edges[j].end == u) || (edges[j].start == u && edges[j].end == v));
    assert !Monochrome(col, edges[j]);
  }

  /** Conversely, a proper colouring of the built graph leaves no edge monochrome. */
  lemma ProperSeparatesEdges(edges: seq<Edge>, col: Coloring)
    requires forall j :: 0 <= j < |edges| ==> 0 <= edges[j].start < |col| && 0 <= edges[j].end < |col|
    requires Proper(GraphOf(edges), col)
    ensures forall j :: 0 <= j < |edges| ==> !Monochrome(col, edges[j])
  {
    EdgesInGraph(edges);
  }

  /**
   * A Kempe-chain move made from a colouring with no bad edge, on the problem's own
   * graph, leaves no bad edge whenever its chain finishes: the MinFeasible cost is
   * again minus the sum of the squared class sizes.
   */
  lemma KempeKeepsFeasible(edges: seq<Edge>, col: Coloring, idx: int, color: int, fuel: nat)
    requires SimpleEdges(edges) && |col| == |OrderOf(edges)|
    requires ColoursInRange(col, |col|) && forall j :: 0 <= j < |edges| ==> !Monochrome(col, edges[j])
    requires 0 <= idx < |col| && InRange(color, |col|)
    ensures var r := KempeMake(GraphOf(edges), col, idx, color, fuel);
      var n := |col|;
      r.Some? ==>
        (|r.value| == n && ColoursInRange(r.value, n) && EdgesInRange(edges, r.value) &&
         BadOf(r.value, edges, n) == Zeros(n) &&
         MinFeasible.Objective(r.value, edges, n) == -SumSquares(ClassesOf(r.value, n)))
  {
    var graph, n := GraphOf(edges), |col|;
    var r := KempeMake(graph, col, idx, color, fuel);
    GraphOfSimple(edges);
    assert WellFormed(graph, n) && Symmetric(graph);
    EdgesSeparatedProper(edges, col);
    KempeMakeProper(graph, col, idx, color, fuel);
    KempeMakeLocal(graph, col, idx, color, fuel);
    if r.Some? {
      var c := r.value;
      assert ColoursInRange(c, n) by {
        forall i | 0 <= i < n
          ensures InRange(c[i].color, n)
        {
          if c[i] != col[i] {
            assert c[i].color == color || c[i].color == col[idx].color;
          }
        }
      }
      ProperSeparatesEdges(edges, c);
      BadEdgesSum(c, edges, n);
      MinFeasibleWithoutBadEdges(c, edges, n);
    }
  }

  // ------------------------------------------------------------------ cost_for

  /**
   * `cost_for`, with the problem's own `_bad_edges` and `_color_classes` (the same loops
   * as the goal's): the MinFeasible objective of the colouring.
   */
  method CostFor(col: Coloring, edges: seq<Edge>, n: nat) returns (cost: int)
    requires ColoursInRange(col, n) && EdgesInRange(edges, col)
    ensures cost == MinFeasible.Objective(col, edges, n)
  {
    var bad := BadEdges(col, edges, n);
    var classes := ColorClasses(col, n);
    cost := 0;
    for i := 0 to n
      invariant cost == FeasibilityTerms(bad, classes, i)
    {
      cost := cost + (2 * bad[i] * classes[i] - classes[i] * classes[i]);
    }
  }
}
