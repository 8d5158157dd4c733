/**
 * The goals of the graph-colouring problem
 * (local_search/problems/graph_coloring_problem/goals): the per-colour counters of
 * `GraphColoringGoal` and the three objectives built from them.
 *
 * Counters are lists of `n_vertices` zeros indexed by colour.  Python accepts an index
 * in [-n, n) and reads a negative one from the end; `Slot` says which entry that is.
 */
module GraphColoringGoals {
  import opened Wrappers
  import opened Problem
  import opened GraphColoringState

  /** `Edge`: its two endpoints, vertex positions in the colouring. */
  datatype Edge = Edge(start: int, end: int)

  // ------------------------------------------------------------------ counters

  function Zeros(n: nat): (z: seq<int>)
    ensures |z| == n && forall i :: 0 <= i < n ==> z[i] == 0
  {
    seq(n, _ => 0)
  }

  function Inc(s: seq<int>, i: int): seq<int>
    requires 0 <= i < |s|
  {
    s[i := s[i] + 1]
  }

  function Sum(s: seq<int>): int {
    if s == [] then 0 else Sum(s[..|s| - 1]) + s[|s| - 1]
  }

  lemma {:induction false} SumZeros(n: nat)
    ensures Sum(Zeros(n)) == 0
  {
    if n > 0 {
      assert Zeros(n)[..n - 1] == Zeros(n - 1);
      SumZeros(n - 1);
    }
  }

  /** Adding one to an entry adds one to the total. */
  lemma {:induction false} SumInc(s: seq<int>, i: int)
    requires 0 <= i < |s|
    ensures Sum(Inc(s, i)) == Sum(s) + 1
  {
    var t := Inc(s, i);
    if i == |s| - 1 {
      assert t[..|t| - 1] == s[..|s| - 1];
    } else {
      assert t[..|t| - 1] == Inc(s[..|s| - 1], i);
      SumInc(s[..|s| - 1], i);
    }
  }

  /** Every colour of the colouring is a valid counter index. */
  predicate ColoursInRange(col: Coloring, n: int) {
    forall i :: 0 <= i < |col| ==> InRange(col[i].color, n)
  }

  /** Every edge endpoint is a valid position in the colouring. */
  predicate EdgesInRange(edges: seq<Edge>, col: Coloring) {
    forall j :: 0 <= j < |edges| ==> InRange(edges[j].start, |col|) && InRange(edges[j].end, |col|)
  }

  /** The counter entry that the colour at position i is counted in. */
  function SlotColours(col: Coloring, n: int): (r: seq<int>)
    ensures |r| == |col|
  {
    seq(|col|, i requires 0 <= i < |col| => Slot(col[i].color, n))
  }

  // ------------------------------------------------------------------ _num_colors

  /** The set of colour values used. */
  function ColourSet(col: Coloring): set<int> {
    set i | 0 <= i < |col| :: col[i].color
  }

  /** `_num_colors`: the number of distinct colour values. */
  function NumColors(col: Coloring): nat {
    |ColourSet(col)|
  }

  lemma ColourSetSnoc(col: Coloring)
    requires col != []
    ensures ColourSet(col) == ColourSet(col[..|col| - 1]) + {col[|col| - 1].color}
  {
    var front := col[..|col| - 1];
    forall c | c in ColourSet(col)
      ensures c in ColourSet(front) + {col[|col| - 1].color}
    {
      var i :| 0 <= i < |col| && col[i].color == c;
      if i < |col| - 1 {
        assert front[i].color == c;
      }
    }
    forall c | c in ColourSet(front)
      ensures c in ColourSet(col)
    {
      var i :| 0 <= i < |front| && front[i].color == c;
      assert col[i].color == c;
    }
  }

  /** A non-empty colouring uses at least one and at most as many colours as vertices. */
  lemma {:induction false} NumColorsBounds(col: Coloring)
    ensures NumColors(col) <= |col|
    ensures |col| > 0 ==> NumColors(col) >= 1
  {
    if col != [] {
      ColourSetSnoc(col);
      NumColorsBounds(col[..|col| - 1]);
      assert col[0].color in ColourSet(col);
    }
  }

  /** The colours 0 .. k - 1. */
  function Range(k: nat): (r: set<int>)
    ensures forall c :: c in r <==> 0 <= c < k
  {
    if k == 0 then {} else Range(k - 1) + {k - 1}
  }

  lemma {:induction false} RangeSize(k: nat)
    ensures |Range(k)| == k
  {
    if k > 0 {
      RangeSize(k - 1);
    }
  }

  /** The round-robin colouring `i % k` of N >= k vertices uses exactly k colours. */
  lemma NumColorsRoundRobin(nVertices: nat, k: nat)
    requires 1 <= k <= nVertices
    ensures NumColors(seq(nVertices, i => Vertex(i, i % k))) == k
  {
    var col := seq(nVertices, i => Vertex(i, i % k));
    RoundRobinWithin(col, k);
    RoundRobinCovers(col, k);
    assert ColourSet(col) == Range(k);
    RangeSize(k);
  }

  lemma RoundRobinWithin(col: Coloring, k: nat)
    requires k >= 1 && forall i :: 0 <= i < |col| ==> col[i].color == i % k
    ensures ColourSet(col) <= Range(k)
  {
    forall c | c in ColourSet(col)
      ensures c in Range(k)
    {
      var i :| 0 <= i < |col| && col[i].color == c;
    }
  }

  lemma RoundRobinCovers(col: Coloring, k: nat)
    requires 1 <= k <= |col| && forall i :: 0 <= i < |col| ==> col[i].color == i % k
    ensures Range(k) <= ColourSet(col)
  {
    forall c | c in Range(k)
      ensures c in ColourSet(col)
    {
      SmallMod(c, k);
      assert col[c].color == c;
    }
  }

  lemma SmallMod(c: int, k: int)
    requires 0 <= c < k
    ensures c % k == c
  {
  }

  // ------------------------------------------------------------------ _color_classes

  /** The counts after the loop of `_color_classes` has seen the vertices of `col`. */
  function ClassesOf(col: Coloring, n: nat): (r: seq<int>)
    requires ColoursInRange(col, n)
    ensures |r| == n
  {
    if col == [] then Zeros(n)
    else
      SlotInRange(col[|col| - 1].color, n);
      Inc(ClassesOf(col[..|col| - 1], n), Slot(col[|col| - 1].color, n))
  }

  /** `_color_classes`: one counter per colour, one increment per vertex. */
  method ColorClasses(col: Coloring, n: nat) returns (counts: seq<int>)
    requires ColoursInRange(col, n)
    ensures counts == ClassesOf(col, n)
  {
    counts := Zeros(n);
    for i := 0 to |col|
      invariant counts == ClassesOf(col[..i], n)
    {
      assert col[..i + 1][..i] == col[..i];
      SlotInRange(col[i].color, n);
      counts := counts[Slot(col[i].color, n) := counts[Slot(col[i].color, n)] + 1];
    }
    assert col[..|col|] == col;
  }

  /** Entry c counts the vertices whose colour lands in slot c. */
  lemma {:induction false} ClassesCount(col: Coloring, n: nat)
    requires ColoursInRange(col, n)
    ensures forall c :: 0 <= c < n ==> ClassesOf(col, n)[c] == multiset(SlotColours(col, n))[c]
  {
    if col != [] {
      var front := col[..|col| - 1];
      ClassesCount(front, n);
      assert SlotColours(col, n) == SlotColours(front, n) + [Slot(col[|col| - 1].color, n)];
    }
  }

  /** The counts add up to the number of vertices. */
  lemma {:induction false} ClassesSum(col: Coloring, n: nat)
    requires ColoursInRange(col, n)
    ensures Sum(ClassesOf(col, n)) == |col|
  {
    if col == [] {
      SumZeros(n);
    } else {
      var front := col[..|col| - 1];
      ClassesSum(front, n);
      SlotInRange(col[|col| - 1].color, n);
      SumInc(ClassesOf(front, n), Slot(col[|col| - 1].color, n));
    }
  }

  /** The counts depend only on the multiset of colours, not on which vertex has which. */
  lemma ClassesPermutation(col: Coloring, other: Coloring, n: nat)
    requires ColoursInRange(col, n) && ColoursInRange(other, n)
    requires multiset(SlotColours(col, n)) == multiset(SlotColours(other, n))
    ensures ClassesOf(col, n) == ClassesOf(other, n)
  {
    ClassesCount(col, n);
    ClassesCount(other, n);
  }

  // ------------------------------------------------------------------ _bad_edges

  /** Both endpoints of the edge have the same colour. */
  predicate Monochrome(col: Coloring, e: Edge)
    requires InRange(e.start, |col|) && InRange(e.end, |col|)
  {
    col[Slot(e.start, |col|)].color == col[Slot(e.end, |col|)].color
  }

  /** The counts after the loop of `_bad_edges` has seen `edges`. */
  function BadOf(col: Coloring, edges: seq<Edge>, n: nat): (r: seq<int>)
    requires ColoursInRange(col, n) && EdgesInRange(edges, col)
    ensures |r| == n && forall c :: 0 <= c < n ==> r[c] >= 0
  {
    if edges == [] then Zeros(n)
    else
      var e := edges[|edges| - 1];
      var front := BadOf(col, edges[..|edges| - 1], n);
      if Monochrome(col, e) then
        var c := col[Slot(e.start, |col|)].color;
        SlotInRange(c, n);
        Inc(front, Slot(c, n))
      else front
  }

  /** `_bad_edges`: one counter per colour, one increment per edge whose ends share it. */
  method BadEdges(col: Coloring, edges: seq<Edge>, n: nat) returns (bad: seq<int>)
    requires ColoursInRange(col, n) && EdgesInRange(edges, col)
    ensures bad == BadOf(col, edges, n)
  {
    bad := Zeros(n);
    for j := 0 to |edges|
      invariant bad == BadOf(col, edges[..j], n)
    {
      assert edges[..j + 1][..j] == edges[..j];
      var e := edges[j];
      if col[Slot(e.start, |col|)].color == col[Slot(e.end, |col|)].color {
        var c := col[Slot(e.start, |col|)].color;
        SlotInRange(c, n);
        bad := bad[Slot(c, n) := bad[Slot(c, n)] + 1];
      }
    }
    assert edges[..|edges|] == edges;
  }

  /** The positions of the monochrome edges whose shared colour lands in counter c. */
  function BadEdgesOf(col: Coloring, edges: seq<Edge>, n: nat, c: int): set<int>
    requires EdgesInRange(edges, col)
  {
    set j | 0 <= j < |edges| && Monochrome(col, edges[j]) && Slot(col[Slot(edges[j].start, |col|)].color, n) == c
  }

  /** Entry c counts the edges whose two ends share a colour that lands in counter c. */
  lemma {:induction false} BadCount(col: Coloring, edges: seq<Edge>, n: nat)
    requires ColoursInRange(col, n) && EdgesInRange(edges, col)
    ensures forall c :: 0 <= c < n ==> BadOf(col, edges, n)[c] == |BadEdgesOf(col, edges, n, c)|
  {
    if edges != [] {
      var k := |edges| - 1;
      var front := edges[..k];
      BadCount(col, front, n);
      forall c | 0 <= c < n
        ensures BadOf(col, edges, n)[c] == |BadEdgesOf(col, edges, n, c)|
      {
        BadEdgesSnoc(col, edges, n, c);
      }
    }
  }

  /** The last edge joins the set for its own counter and no other. */
  lemma BadEdgesSnoc(col: Coloring, edges: seq<Edge>, n: nat, c: int)
    requires EdgesInRange(edges, col) && edges != []
    ensures var k := |edges| - 1;
      var e := edges[k];
      k !in BadEdgesOf(col, edges[..k], n, c) &&
      BadEdgesOf(col, edges, n, c) ==
        BadEdgesOf(col, edges[..k], n, c) +
        (if Monochrome(col, e) && Slot(col[Slot(e.start, |col|)].color, n) == c then {k} else {})
  {
    var k := |edges| - 1;
    var front := edges[..k];
    assert forall j :: 0 <= j < k ==> front[j] == edges[j];
  }

  /** The number of edges whose two ends share a colour. */
  function MonochromeCount(col: Coloring, edges: seq<Edge>): (k: nat)
    requires EdgesInRange(edges, col)
    ensures k <= |edges|
  {
    if edges == [] then 0
    else (MonochromeCount(col, edges[..|edges| - 1]) +
          (if Monochrome(col, edges[|edges| - 1]) then 1 else 0))
  }

  /**
   * The counts add up to the number of monochrome edges, so at most |edges|, and
   * they are all zero exactly when no edge joins two vertices of the same colour.
   */
  lemma {:induction false} BadEdgesSum(col: Coloring, edges: seq<Edge>, n: nat)
    requires ColoursInRange(col, n) && EdgesInRange(edges, col)
    ensures Sum(BadOf(col, edges, n)) == MonochromeCount(col, edges) <= |edges|
    ensures BadOf(col, edges, n) == Zeros(n) <==>
      forall j :: 0 <= j < |edges| ==> !Monochrome(col, edges[j])
  {
    if edges == [] {
      SumZeros(n);
    } else {
      var front := edges[..|edges| - 1];
      var e := edges[|edges| - 1];
      BadEdgesSum(col, front, n);
      if Monochrome(col, e) {
        var c := col[Slot(e.start, |col|)].color;
        SlotInRange(c, n);
        SumInc(BadOf(col, front, n), Slot(c, n));
        assert BadOf(col, edges, n)[Slot(c, n)] > 0;
        assert BadOf(col, edges, n) != Zeros(n);
      } else {
        assert forall j :: 0 <= j < |front| ==> front[j] == edges[j];
      }
    }
  }

  /** With every vertex of colour c, entry c counts every edge and the others stay zero. */
  lemma {:induction false} BadEdgesOneColour(col: Coloring, edges: seq<Edge>, n: nat, c: int)
    requires 0 <= c < n
    requires forall i :: 0 <= i < |col| ==> col[i].color == c
    requires EdgesInRange(edges, col)
    ensures ColoursInRange(col, n)
    ensures BadOf(col, edges, n) == Zeros(n)[c := |edges|]
  {
    if edges != [] {
      BadEdgesOneColour(col, edges[..|edges| - 1], n, c);
      var e := edges[|edges| - 1];
      SlotInRange(e.start, |col|);
      SlotInRange(e.end, |col|);
    }
  }

  // ------------------------------------------------------------------ objectives

  function SumSquares(s: seq<int>): int {
    if s == [] then 0 else SumSquares(s[..|s| - 1]) + s[|s| - 1] * s[|s| - 1]
  }

  lemma {:induction false} SumSquaresNonNegative(s: seq<int>)
    ensures SumSquares(s) >= 0
  {
    if s != [] {
      SumSquaresNonNegative(s[..|s| - 1]);
    }
  }

  /** The sum over i < k of 2 * bad[i] * classes[i] - classes[i]^2. */
  function FeasibilityTerms(bad: seq<int>, classes: seq<int>, k: nat): int
    requires k <= |bad| && k <= |classes|
  {
    if k == 0 then 0
    else (FeasibilityTerms(bad, classes, k - 1) +
          (2 * bad[k - 1] * classes[k - 1] - classes[k - 1] * classes[k - 1]))
  }

  /** Without bad edges the terms reduce to minus the sum of squared class sizes. */
  lemma {:induction false} FeasibilityWithoutBadEdges(bad: seq<int>, classes: seq<int>, k: nat)
    requires k <= |bad| && k <= |classes|
    requires forall i :: 0 <= i < k ==> bad[i] == 0
    ensures FeasibilityTerms(bad, classes, k) == -SumSquares(classes[..k])
  {
    if k > 0 {
      FeasibilityWithoutBadEdges(bad, classes, k - 1);
      assert classes[..k][..k - 1] == classes[..k - 1];
    }
  }

  /** The three graph-colouring goals. */
  datatype GraphColoringGoal = MinFeasible | MaxClasses | MinColors {
    /** `type()`. */
    function Type(): GoalType {
      if MaxClasses? then Max else Min
    }

    /** `objective_for` of each goal. */
    function Objective(col: Coloring, edges: seq<Edge>, n: nat): int
      requires !MinColors? ==> ColoursInRange(col, n) && EdgesInRange(edges, col)
    {
      match this
      case MinFeasible => FeasibilityTerms(BadOf(col, edges, n), ClassesOf(col, n), n)
      case MaxClasses => SumSquares(ClassesOf(col, n))
      case MinColors => NumColors(col)
    }
  }

  /** Minimise the feasibility sum and the number of colours; maximise the class sizes. */
  lemma GoalTypes()
    ensures MinFeasible.Type() == Min && MaxClasses.Type() == Max && MinColors.Type() == Min
  {
  }

  /** MinFeasible: with no bad edge the objective is minus the sum of squared class sizes. */
  lemma MinFeasibleWithoutBadEdges(col: Coloring, edges: seq<Edge>, n: nat)
    requires ColoursInRange(col, n) && EdgesInRange(edges, col)
    requires forall j :: 0 <= j < |edges| ==> !Monochrome(col, edges[j])
    ensures MinFeasible.Objective(col, edges, n) == -SumSquares(ClassesOf(col, n))
  {
    BadEdgesSum(col, edges, n);
    FeasibilityWithoutBadEdges(BadOf(col, edges, n), ClassesOf(col, n), n);
    assert ClassesOf(col, n)[..n] == ClassesOf(col, n);
  }

  /** MaxClasses: the objective is never negative. */
  lemma MaxClassesNonNegative(col: Coloring, edges: seq<Edge>, n: nat)
    requires ColoursInRange(col, n) && EdgesInRange(edges, col)
    ensures MaxClasses.Objective(col, edges, n) >= 0
  {
    SumSquaresNonNegative(ClassesOf(col, n));
  }

  /** MaxClasses: renumbering the vertices (permuting the colours) leaves the objective as it is. */
  lemma MaxClassesPermutation(col: Coloring, other: Coloring, edges: seq<Edge>, otherEdges: seq<Edge>, n: nat)
    requires ColoursInRange(col, n) && EdgesInRange(edges, col)
    requires ColoursInRange(other, n) && EdgesInRange(otherEdges, other)
    requires multiset(SlotColours(col, n)) == multiset(SlotColours(other, n))
    ensures MaxClasses.Objective(col, edges, n) == MaxClasses.Objective(other, otherEdges, n)
  {
    ClassesPermutation(col, other, n);
  }

  /** MinColors: between one and |col| for a non-empty colouring. */
  lemma MinColorsBounds(col: Coloring, edges: seq<Edge>, n: nat)
    requires |col| > 0
    ensures 1 <= MinColors.Objective(col, edges, n) <= |col|
  {
    NumColorsBounds(col);
  }

  /** Two colourings with the same colours position by position. */
  predicate SameColours(col: Coloring, other: Coloring) {
    |col| == |other| && forall i :: 0 <= i < |col| ==> col[i].color == other[i].color
  }

  lemma {:induction false} ClassesOnlyColours(col: Coloring, other: Coloring, n: nat)
    requires ColoursInRange(col, n) && SameColours(col, other)
    ensures ColoursInRange(other, n) && ClassesOf(col, n) == ClassesOf(other, n)
  {
    if col != [] {
      ClassesOnlyColours(col[..|col| - 1], other[..|other| - 1], n);
    }
  }

  lemma {:induction false} BadOnlyColours(col: Coloring, other: Coloring, edges: seq<Edge>, n: nat)
    requires ColoursInRange(col, n) && EdgesInRange(edges, col) && SameColours(col, other)
    ensures ColoursInRange(other, n) && EdgesInRange(edges, other)
    ensures BadOf(col, edges, n) == BadOf(other, edges, n)
  {
    if edges != [] {
      BadOnlyColours(col, other, edges[..|edges| - 1], n);
      var e := edges[|edges| - 1];
      SlotInRange(e.start, |col|);
      SlotInRange(e.end, |col|);
    }
  }

  /** Every objective reads only the colour of each vertex, never its idx field. */
  lemma ObjectiveOnlyColours(g: GraphColoringGoal, col: Coloring, other: Coloring, edges: seq<Edge>, n: nat)
    requires ColoursInRange(col, n) && EdgesInRange(edges, col) && SameColours(col, other)
    ensures ColoursInRange(other, n) && EdgesInRange(edges, other)
    ensures g.Objective(col, edges, n) == g.Objective(other, edges, n)
  {
    ClassesOnlyColours(col, other, n);
    BadOnlyColours(col, other, edges, n);
    assert ColourSet(col) == ColourSet(other) by {
      forall c | c in ColourSet(other)
        ensures c in ColourSet(col)
      {
        var i :| 0 <= i < |other| && other[i].color == c;
        assert col[i].color == c;
      }
    }
  }
}
