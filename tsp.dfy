/**
 * The travelling-salesman problem (local_search/problems/traveling_salesman_problem):
 * routes as lists of point indices, the 2-opt move and its generator, the two- and
 * three-edge swaps, the cyclic edge list, route equality, the initial route and the
 * dictionary form of the problem.
 */
module TravelingSalesman {
  import opened Wrappers
  import opened Naming
  import opened MoveGenerator
  import Problem

  /** `Point`: integer coordinates. */
  datatype Point = Point(x: int, y: int)

  /** `Edge`: two entries of a route. */
  datatype Edge = Edge(start: int, end: int)

  /** `TravelingSalesmanState.route`: indices into the list of points. */
  type Route = seq<int>

  // ------------------------------------------------------------------ TwoOptMove.make

  /** `list(reversed(s))`. */
  function Reverse(s: seq<int>): (r: seq<int>)
    ensures |r| == |s|
    ensures forall k :: 0 <= k < |s| ==> r[k] == s[|s| - 1 - k]
  {
    if s == [] then [] else [s[|s| - 1]] + Reverse(s[..|s| - 1])
  }

  /** Reversing keeps the elements and their multiplicities. */
  lemma {:induction false} ReversePermutes(s: seq<int>)
    ensures multiset(Reverse(s)) == multiset(s)
  {
    if s != [] {
      ReversePermutes(s[..|s| - 1]);
      assert s == s[..|s| - 1] + [s[|s| - 1]];
    }
  }

  /** `TwoOptMove.make`: the segment [i1, i2) of the route is reversed. */
  function TwoOpt(route: Route, i1: int, i2: int): (r: Route)
    requires 0 <= i1 <= i2 <= |route|
    ensures |r| == |route|
    ensures forall k :: 0 <= k < |route| && (k < i1 || i2 <= k) ==> r[k] == route[k]
    ensures forall k :: i1 <= k < i2 ==> r[k] == route[i1 + i2 - 1 - k]
  {
    route[..i1] + Reverse(route[i1..i2]) + route[i2..]
  }

  /** A 2-opt move is a permutation of the route. */
  lemma TwoOptPermutes(route: Route, i1: int, i2: int)
    requires 0 <= i1 <= i2 <= |route|
    ensures multiset(TwoOpt(route, i1, i2)) == multiset(route)
  {
    ReversePermutes(route[i1..i2]);
    assert route == route[..i1] + route[i1..i2] + route[i2..];
  }

  /** The same 2-opt move made twice gives back the route. */
  lemma TwoOptInvolution(route: Route, i1: int, i2: int)
    requires 0 <= i1 <= i2 <= |route|
    ensures TwoOpt(TwoOpt(route, i1, i2), i1, i2) == route
  {
  }

  // ------------------------------------------------------------------ TwoOpt.available_moves

  /** The inner loop from i2 = lo: `(i1, i2)` for i2 in range(lo, n - 1). */
  function InnerMoves(i1: int, lo: int, n: int): (r: seq<(int, int)>)
    ensures forall m :: m in r <==> m.0 == i1 && lo <= m.1 <= n - 2
    ensures forall i, j :: 0 <= i < j < |r| ==> r[i].1 < r[j].1
    decreases n - lo
  {
    if n - 1 <= lo then []
    else
      var rest := InnerMoves(i1, lo + 1, n);
      assert forall j :: 0 <= j < |rest| ==> rest[j] in rest;
      [(i1, lo)] + rest
  }

  /** Pair m comes strictly before pair p in lexicographic order. */
  predicate LexLess(m: (int, int), p: (int, int)) {
    m.0 < p.0 || (m.0 == p.0 && m.1 < p.1)
  }

  /** The outer loop from i1 = lo: i1 in range(lo, n - 2). */
  function OuterMoves(lo: int, n: int): (r: seq<(int, int)>)
    ensures forall m :: m in r <==> lo <= m.0 < m.1 <= n - 2
    ensures forall i, j :: 0 <= i < j < |r| ==> LexLess(r[i], r[j])
    decreases n - lo
  {
    if n - 2 <= lo then []
    else
      var inner, rest := InnerMoves(lo, lo + 1, n), OuterMoves(lo + 1, n);
      assert forall i :: 0 <= i < |inner| ==> inner[i] in inner;
      assert forall j :: 0 <= j < |rest| ==> rest[j] in rest;
      inner + rest
  }

  /**
   * `TwoOpt.available_moves` for a route of length n: every pair 1 <= i1 < i2 <= n - 2
   * exactly once, in lexicographic order, so the first and last entries are never moved.
   */
  function TwoOptMoves(n: int): (r: seq<(int, int)>)
    ensures forall m :: m in r <==> 1 <= m.0 < m.1 <= n - 2
    ensures forall i, j :: 0 <= i < j < |r| ==> LexLess(r[i], r[j])
  {
    OuterMoves(1, n)
  }

  /** No available 2-opt move touches the first (depot) or the last (depot) entry. */
  lemma TwoOptKeepsDepot(route: Route, m: (int, int))
    requires m in TwoOptMoves(|route|)
    ensures 0 <= m.0 <= m.1 <= |route|
    ensures var r := TwoOpt(route, m.0, m.1);
      r[0] == route[0] && r[|r| - 1] == route[|route| - 1] && multiset(r) == multiset(route)
  {
    TwoOptPermutes(route, m.0, m.1);
  }

  // ------------------------------------------------------------------ TwoOpt.random_moves

  /**
   * `random.randrange(a, b)` with the random draw `r`: ValueError (None) for an empty
   * range, otherwise a value of [a, b).
   */
  function RandRange(a: int, b: int, r: nat): (v: Option<int>)
    ensures v.Some? <==> a < b
    ensures v.Some? ==> a <= v.value < b
  {
    if a < b then Some(a + r % (b - a)) else None
  }

  /** One move of `TwoOpt.random_moves` for a route of length n, from the draws r1, r2. */
  function RandomTwoOptMove(n: int, r1: nat, r2: nat): (m: Option<(int, int)>)
    ensures m.Some? <==> n >= 4
    ensures m.Some? ==> 1 <= m.value.0 < m.value.1 <= n - 2
  {
    match RandRange(1, n - 2, r1)
    case None => None
    case Some(i1) =>
      match RandRange(i1 + 1, n - 1, r2)
      case None => None
      case Some(i2) => Some((i1, i2))
  }

  /** The random moves come from the same index ranges as the available moves. */
  lemma RandomTwoOptMoveAvailable(n: int, r1: nat, r2: nat)
    requires RandomTwoOptMove(n, r1, r2).Some?
    ensures RandomTwoOptMove(n, r1, r2).value in TwoOptMoves(n)
  {
  }

  lemma ModSmall(a: int, b: int)
    requires 0 <= a < b
    ensures a % b == a
  {
  }

  /** Every available move can be drawn. */
  lemma AvailableTwoOptDrawn(n: int, m: (int, int))
    requires m in TwoOptMoves(n)
    ensures RandomTwoOptMove(n, m.0 - 1, m.1 - m.0 - 1) == Some(m)
  {
    ModSmall(m.0 - 1, n - 3);
    ModSmall(m.1 - m.0 - 1, n - 2 - m.0);
  }

  // ------------------------------------------------------------------ SwapTwoEdges / SwapThreeEdges

  /** The list after `l[i], l[j] = l[j], l[i]`, for positions i and j. */
  function Swap(s: seq<int>, i: int, j: int): (r: seq<int>)
    requires 0 <= i < |s| && 0 <= j < |s|
    ensures |r| == |s| && multiset(r) == multiset(s)
  {
    s[i := s[j]][j := s[i]]
  }

  /** `SwapTwoEdges.make`: swap the entries at the end positions of the two edges. */
  method SwapTwoEdges(route: Route, a: Edge, b: Edge) returns (r: Route)
    requires InRange(a.end, |route|) && InRange(b.end, |route|)
    ensures r == Swap(route, Slot(a.end, |route|), Slot(b.end, |route|))
  {
    var indices := route;
    var i, j := Slot(a.end, |indices|), Slot(b.end, |indices|);
    indices := indices[i := indices[j]][j := indices[i]];
    r := indices;
  }

  /**
   * A two-edge swap keeps the length and the entries, changes at most the two
   * swapped positions, and is a no-op when both edges end at the same position.
   */
  lemma SwapTwoEdgesEffect(route: Route, i: int, j: int)
    requires 0 <= i < |route| && 0 <= j < |route|
    ensures var r := Swap(route, i, j);
      |r| == |route| && multiset(r) == multiset(route) &&
      r[i] == route[j] && r[j] == route[i] &&
      (forall k :: 0 <= k < |route| && k != i && k != j ==> r[k] == route[k]) &&
      (i == j ==> r == route)
  {
  }

  /** The number of edges whose start equals its (current) end: `loops_count`. */
  function Loops(starts: seq<int>, ends: seq<int>): (k: nat)
    requires |starts| == |ends|
    ensures k <= |starts|
    ensures k == 0 <==> forall i :: 0 <= i < |starts| ==> starts[i] != ends[i]
  {
    if starts == [] then 0
    else
      var front := Loops(starts[..|starts| - 1], ends[..|ends| - 1]);
      assert forall i :: 0 <= i < |starts| - 1 ==> starts[..|starts| - 1][i] == starts[i];
      assert forall i :: 0 <= i < |ends| - 1 ==> ends[..|ends| - 1][i] == ends[i];
      front + (if starts[|starts| - 1] == ends[|ends| - 1] then 1 else 0)
  }

  /** `ends[1:] + [ends[0]]`. */
  function RotateLeft(ends: seq<int>): (r: seq<int>)
    requires ends != []
    ensures |r| == |ends| && forall x :: x in r <==> x in ends
  {
    assert ends == [ends[0]] + ends[1..];
    ends[1..] + [ends[0]]
  }

  /**
   * The rotation loop with `rounds` passes left: each pass counts the loops, rotates,
   * and stops if there were none.
   */
  function Rotated(starts: seq<int>, ends: seq<int>, rounds: nat): (r: seq<int>)
    requires |starts| == |ends|
    ensures |r| == |ends| && forall x :: x in r <==> x in ends
    decreases rounds
  {
    if rounds == 0 || ends == [] then ends
    else if Loops(starts, ends) == 0 then RotateLeft(ends)
    else Rotated(starts, RotateLeft(ends), rounds - 1)
  }

  /** Every position the swap loop reads is a valid index of a list of length n. */
  predicate EdgesFit(starts: seq<int>, ends: seq<int>, n: int) {
    (forall x :: x in starts ==> InRange(x + 1, n)) && (forall x :: x in ends ==> InRange(x, n))
  }

  /** The swap loop over the first k edges: swap positions start + 1 and end. */
  function SwapEdges(indices: seq<int>, starts: seq<int>, ends: seq<int>, k: nat): (r: seq<int>)
    requires k <= |starts| == |ends|
    requires EdgesFit(starts, ends, |indices|)
    ensures |r| == |indices| && multiset(r) == multiset(indices)
  {
    if k == 0 then indices
    else
      var s := SwapEdges(indices, starts, ends, k - 1);
      assert starts[k - 1] in starts && ends[k - 1] in ends;
      Swap(s, Slot(starts[k - 1] + 1, |s|), Slot(ends[k - 1], |s|))
  }

  /** The rotation loop of `SwapThreeEdges.make`, one pass per edge. */
  method RotateEnds(starts: seq<int>, ends: seq<int>) returns (r: seq<int>)
    requires |starts| == |ends|
    ensures r == Rotated(starts, ends, |starts|)
  {
    r := ends;
    var pass := 0;
    while pass < |starts|
      invariant 0 <= pass <= |starts| && |r| == |ends|
      invariant Rotated(starts, ends, |starts|) == Rotated(starts, r, |starts| - pass)
    {
      var loopsCount := Loops(starts, r);
      r := RotateLeft(r);
      if loopsCount == 0 {
        break;
      }
      pass := pass + 1;
    }
  }

  /**
   * `SwapThreeEdges.make`: rotate the ends until no edge starts where it ends (at most
   * three times), then for each edge swap the entry after its start with its end.
   */
  method SwapThreeEdges(route: Route, a: Edge, b: Edge, c: Edge) returns (r: Route)
    requires EdgesFit([a.start, b.start, c.start], [a.end, b.end, c.end], |route|)
    ensures var starts, ends := [a.start, b.start, c.start], [a.end, b.end, c.end];
      r == SwapEdges(route, starts, Rotated(starts, ends, 3), 3)
    ensures |r| == |route| && multiset(r) == multiset(route)
  {
    var edges := [a, b, c];
    var indices := route;
    var starts := [a.start, b.start, c.start];
    var ends := [a.end, b.end, c.end];
    ends := RotateEnds(starts, ends);
    assert EdgesFit(starts, ends, |route|);
    for i := 0 to |edges|
      invariant indices == SwapEdges(route, starts, ends, i)
    {
      var start, end := starts[i], ends[i];
      assert start in starts && end in ends;
      var p, q := Slot(start + 1, |indices|), Slot(end, |indices|);
      indices := indices[p := indices[q]][q := indices[p]];
    }
    r := indices;
  }

  // ------------------------------------------------------------------ edges

  /** `zip(xs, ys)` as edges. */
  function Zip(xs: seq<int>, ys: seq<int>): (r: seq<Edge>)
    requires |xs| == |ys|
    ensures |r| == |xs|
    ensures forall i :: 0 <= i < |xs| ==> r[i] == Edge(xs[i], ys[i])
  {
    if xs == [] then [] else Zip(xs[..|xs| - 1], ys[..|ys| - 1]) + [Edge(xs[|xs| - 1], ys[|ys| - 1])]
  }

  /** `TravelingSalesmanState.edges`: each entry paired with the next, the last with the first. */
  function Edges(route: Route): seq<Edge>
    requires route != []
  {
    Zip(route, route[1..] + [route[0]])
  }

  /**
   * There are as many edges as entries and edge i joins entry i to entry i + 1 (mod
   * the length), so the last one closes the cycle back to the first entry.
   */
  lemma EdgesCycle(route: Route)
    requires route != []
    ensures |Edges(route)| == |route|
    ensures forall i :: 0 <= i < |route| ==> Edges(route)[i] == Edge(route[i], route[(i + 1) % |route|])
    ensures Edges(route)[|route| - 1] == Edge(route[|route| - 1], route[0])
  {
    var n := |route|;
    var next := route[1..] + [route[0]];
    assert Edges(route) == Zip(route, next);
    forall i | 0 <= i < n
      ensures next[i] == route[(i + 1) % n]
    {
      NextIndex(i, n);
    }
  }

  /** Index i + 1, wrapped around a cycle of n entries. */
  lemma NextIndex(i: int, n: int)
    requires 0 <= i < n
    ensures (i + 1) % n == if i < n - 1 then i + 1 else 0
  {
  }

  function Starts(es: seq<Edge>): (r: seq<int>)
    ensures |r| == |es| && forall i :: 0 <= i < |es| ==> r[i] == es[i].start
  {
    seq(|es|, i requires 0 <= i < |es| => es[i].start)
  }

  function Ends(es: seq<Edge>): (r: seq<int>)
    ensures |r| == |es| && forall i :: 0 <= i < |es| ==> r[i] == es[i].end
  {
    seq(|es|, i requires 0 <= i < |es| => es[i].end)
  }

  /** Every entry of the route starts one edge and ends one edge. */
  lemma EdgesVisitEachEntry(route: Route)
    requires route != []
    ensures multiset(Starts(Edges(route))) == multiset(route)
    ensures multiset(Ends(Edges(route))) == multiset(route)
  {
    assert Starts(Edges(route)) == route;
    assert Ends(Edges(route)) == route[1..] + [route[0]];
    assert route == [route[0]] + route[1..];
  }

  // ------------------------------------------------------------------ __eq__

  /**
   * `TravelingSalesmanState.__eq__`: false against None; otherwise `any` looks for the
   * first index of self's route where the routes differ, and an index past the end of
   * the other route raises IndexError (None) before a difference is found.
   */
  function RouteEquals(self: Route, other: Option<Route>): (r: Option<bool>)
    ensures r == Some(true) <==>
      other.Some? && |self| <= |other.value| && self == other.value[..|self|]
    ensures r.None? <==>
      other.Some? && |other.value| < |self| && self[..|other.value|] == other.value
  {
    if other.None? then Some(false) else EqualsFrom(self, other.value, 0)
  }

  /** The `any` loop from index i on. */
  function EqualsFrom(self: Route, other: Route, i: nat): (r: Option<bool>)
    requires i <= |self| && i <= |other| && self[..i] == other[..i]
    ensures r == Some(true) <==> |self| <= |other| && self == other[..|self|]
    ensures r.None? <==> |other| < |self| && self[..|other|] == other
    decreases |self| - i
  {
    if i == |self| then
      assert self == self[..i];
      Some(true)
    else if i == |other| then
      assert other[..i] == other;
      None
    else if self[i] != other[i] then
      assert self[..i + 1][i] != other[..i + 1][i];
      Some(false)
    else
      assert self[..i + 1] == self[..i] + [self[i]];
      assert other[..i + 1] == other[..i] + [other[i]];
      EqualsFrom(self, other, i + 1)
  }

  /** A route equals itself. */
  lemma RouteEqualsReflexive(route: Route)
    ensures RouteEquals(route, Some(route)) == Some(true)
  {
  }

  // ------------------------------------------------------------------ random_state

  /** `[idx for idx in range(k) if idx != depot]`. */
  function NonDepot(k: int, depot: int): (r: seq<int>)
    ensures forall v :: v in r <==> 0 <= v < k && v != depot
    ensures forall i, j :: 0 <= i < j < |r| ==> r[i] < r[j]
    ensures |r| == if 0 <= depot < k then k - 1 else if k < 0 then 0 else k
    decreases k
  {
    if k <= 0 then []
    else
      var front := NonDepot(k - 1, depot);
      assert forall i :: 0 <= i < |front| ==> front[i] in front;
      if k - 1 == depot then front else front + [k - 1]
  }

  /** Sorted entries occur once each. */
  lemma {:induction false} SortedOnce(s: seq<int>, v: int)
    requires forall i, j :: 0 <= i < j < |s| ==> s[i] < s[j]
    ensures multiset(s)[v] == if v in s then 1 else 0
  {
    if s != [] {
      var front := s[..|s| - 1];
      SortedOnce(front, v);
      assert s == front + [s[|s| - 1]];
      assert s[|s| - 1] !in front;
    }
  }

  /**
   * `random_state` for `numPoints` points: the non-depot indices shuffled by the draws
   * (`random.shuffle`) between two visits of the depot.
   */
  function RandomState(numPoints: nat, depot: int, draws: seq<nat>): (r: Route)
    requires |draws| == |NonDepot(numPoints, depot)| && ValidDraws(|draws|, draws)
    ensures |r| >= 2 && r[0] == depot && r[|r| - 1] == depot
  {
    [depot] + Sample(NonDepot(numPoints, depot), draws) + [depot]
  }

  /** With the depot among the points, the route has one entry per point plus the return. */
  lemma RandomStateLength(numPoints: nat, depot: int, draws: seq<nat>)
    requires |draws| == |NonDepot(numPoints, depot)| && ValidDraws(|draws|, draws)
    ensures 0 <= depot < numPoints ==> |RandomState(numPoints, depot, draws)| == numPoints + 1
  {
  }

  /** Between the two depot visits, every other point is visited exactly once. */
  lemma RandomStateVisitsOnce(numPoints: nat, depot: int, draws: seq<nat>, v: int)
    requires |draws| == |NonDepot(numPoints, depot)| && ValidDraws(|draws|, draws)
    requires 0 <= v < numPoints && v != depot
    ensures var r := RandomState(numPoints, depot, draws);
      multiset(r[1..|r| - 1])[v] == 1
  {
    var r := RandomState(numPoints, depot, draws);
    assert r[1..|r| - 1] == Sample(NonDepot(numPoints, depot), draws);
    SortedOnce(NonDepot(numPoints, depot), v);
  }

  /** Every sampled element comes from the pool. */
  lemma SampleFromPool(pool: seq<int>, draws: seq<nat>)
    requires ValidDraws(|pool|, draws)
    ensures forall x :: x in Sample(pool, draws) ==> x in pool
  {
    forall x | x in Sample(pool, draws) ensures x in pool {
      assert x in multiset(Sample(pool, draws));
    }
  }

  /** Between the two depot visits there are only points other than the depot. */
  lemma RandomStateMiddle(numPoints: nat, depot: int, draws: seq<nat>)
    requires |draws| == |NonDepot(numPoints, depot)| && ValidDraws(|draws|, draws)
    ensures var r := RandomState(numPoints, depot, draws);
      forall k :: 1 <= k < |r| - 1 ==> 0 <= r[k] < numPoints && r[k] != depot
  {
    var pool := NonDepot(numPoints, depot);
    var middle := Sample(pool, draws);
    SampleFromPool(pool, draws);
    assert forall x :: x in middle ==> 0 <= x < numPoints && x != depot;
    var r := RandomState(numPoints, depot, draws);
    assert r == [depot] + middle + [depot];
    assert r[1..|r| - 1] == middle;
    forall k | 1 <= k < |r| - 1
      ensures 0 <= r[k] < numPoints && r[k] != depot
    {
      assert r[k] == r[1..|r| - 1][k - 1];
      assert r[k] in middle;
    }
  }



  // ------------------------------------------------------------------ asdict / from_dict

  /** The arguments of the `TravelingSalesmanProblem` constructor. */
  datatype TspArgs = TspArgs(points: seq<Point>, depotIdx: int, goalName: string, moveGeneratorName: string)

  /** A problem: its points, its depot and the class names of its goal and move generator. */
  datatype TspProblem = TspProblem(points: seq<Point>, depotIdx: int, goalClass: string, moveGeneratorClass: string)

  /** `asdict`: the depot, the points as pairs, and the names of the base `asdict`. */
  datatype TspDict = TspDict(depotIdx: int, points: seq<(int, int)>, names: map<string, string>)

  function PointsToPairs(ps: seq<Point>): (r: seq<(int, int)>)
    ensures |r| == |ps| && forall i :: 0 <= i < |ps| ==> r[i] == (ps[i].x, ps[i].y)
  {
    seq(|ps|, i requires 0 <= i < |ps| => (ps[i].x, ps[i].y))
  }

  function PairsToPoints(ts: seq<(int, int)>): (r: seq<Point>)
    ensures |r| == |ts| && forall i :: 0 <= i < |ts| ==> r[i] == Point(ts[i].0, ts[i].1)
  {
    seq(|ts|, i requires 0 <= i < |ts| => Point(ts[i].0, ts[i].1))
  }

  /** `TravelingSalesmanProblem.asdict`. */
  function TspAsDict(p: TspProblem): (d: TspDict)
    ensures d.depotIdx == p.depotIdx && |d.points| == |p.points|
    ensures forall i :: 0 <= i < |p.points| ==> d.points[i] == (p.points[i].x, p.points[i].y)
  {
    TspDict(p.depotIdx, PointsToPairs(p.points),
            Problem.AsDict("TravelingSalesmanProblem", p.goalClass, p.moveGeneratorClass))
  }

  /**
   * `TravelingSalesmanProblem.from_dict`, called by the base `from_dict` once it has
   * deleted the "name" key: the points rebuilt from pairs and every key passed on.
   */
  function TspFromDict(d: TspDict): TspArgs
    requires d.names.Keys == {"goal_name", "move_generator_name"}
  {
    TspArgs(PairsToPoints(d.points), d.depotIdx, d.names["goal_name"], d.names["move_generator_name"])
  }

  /**
   * `from_dict(asdict())` rebuilds the same points and depot, with the registry names of
   * the goal and move generator classes.
   */
  lemma TspRoundTrip(p: TspProblem)
    ensures var d := TspAsDict(p);
      "name" in d.names &&
      var args := TspFromDict(d.(names := d.names - {"name"}));
      args.points == p.points && args.depotIdx == p.depotIdx &&
      args.goalName == CamelToSnake(p.goalClass) &&
      args.moveGeneratorName == CamelToSnake(p.moveGeneratorClass)
  {
  }
}
