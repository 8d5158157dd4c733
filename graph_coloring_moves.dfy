/**
 * The moves of the graph-colouring problem
 * (local_search/problems/graph_coloring_problem/moves): recolouring one vertex, and
 * the Kempe chain that recolours one vertex and then repairs the conflicts it causes.
 *
 * A move's `make` deep-copies the colouring before changing it; colourings here are
 * values, so the state a move was made from is never altered.
 */
module GraphColoringMoves {
  import opened Wrappers
  import opened GraphColoringState
  import opened GraphColoringGoals

  /** The two arguments of both move kinds: which vertex and which colour. */
  datatype ColourMove = ColourMove(idx: int, color: int)

  // ------------------------------------------------------------------ ChangeColor

  /** `ChangeColorMove.make`: vertex `idx` takes `color`; every other vertex keeps its own. */
  function ChangeColorMake(col: Coloring, idx: int, color: int): (r: Coloring)
    requires InRange(idx, |col|)
    ensures |r| == |col|
    ensures r[Slot(idx, |col|)] == Vertex(col[Slot(idx, |col|)].idx, color)
    ensures forall i :: 0 <= i < |col| && i != Slot(idx, |col|) ==> r[i] == col[i]
  {
    col[Slot(idx, |col|) := col[Slot(idx, |col|)].(color := color)]
  }

  /** Recolouring a vertex back to its former colour undoes the move. */
  lemma ChangeColorUndo(col: Coloring, idx: int, color: int)
    requires InRange(idx, |col|)
    ensures ChangeColorMake(ChangeColorMake(col, idx, color), idx, col[Slot(idx, |col|)].color) == col
  {
  }

  /** A non-empty set has an element to pick: Python's iteration over a set. */
  lemma HasElement(s: set<int>)
    requires s != {}
    ensures exists x :: x in s
  {
    if forall x :: x !in s {
      assert false;
    }
  }

  /** Moving one element `c` of `all - seen` into `seen` shrinks what is left by `c`. */
  lemma TakeOne(all: set<int>, seen: set<int>, c: int)
    requires seen <= all && c in all - seen
    ensures all - (seen + {c}) == (all - seen) - {c} && seen + {c} <= all && c !in seen
    ensures |(all - seen) - {c}| < |all - seen|
  {
  }

  /** What the inner loop of `available_moves` has yielded once it has seen the colours `seen`. */
  ghost predicate MovesForSoFar(idx: int, own: int, seen: set<int>, moves: seq<ColourMove>) {
    (forall m :: m in moves <==> m.idx == idx && m.color in seen && m.color != own) &&
    (forall j :: 0 <= j < |moves| ==> moves[j].idx == idx && moves[j].color in seen) &&
    (forall j, k :: 0 <= j < k < |moves| ==> moves[j] != moves[k]) &&
    |moves| == |seen - {own}|
  }

  lemma MovesForStep(idx: int, own: int, seen: set<int>, moves: seq<ColourMove>, c: int)
    requires MovesForSoFar(idx, own, seen, moves) && c !in seen
    ensures MovesForSoFar(idx, own, seen + {c}, if c != own then moves + [ColourMove(idx, c)] else moves)
  {
    if c != own {
      MovesForGrow(idx, own, seen, moves, c);
    } else {
      assert seen + {c} - {own} == seen - {own};
    }
  }

  lemma MovesForGrow(idx: int, own: int, seen: set<int>, moves: seq<ColourMove>, c: int)
    requires MovesForSoFar(idx, own, seen, moves) && c !in seen && c != own
    ensures MovesForSoFar(idx, own, seen + {c}, moves + [ColourMove(idx, c)])
  {
    var m := ColourMove(idx, c);
    var next := moves + [m];
    assert forall x :: x in next <==> x in moves || x == m;
    assert forall j :: 0 <= j < |next| ==> next[j].idx == idx && next[j].color in seen + {c} by {
      forall j | 0 <= j < |next|
        ensures next[j].idx == idx && next[j].color in seen + {c}
      {
        if j < |moves| {
          assert next[j] == moves[j];
        }
      }
    }
    assert forall j, k :: 0 <= j < k < |next| ==> next[j] != next[k] by {
      assert m !in moves;
      forall j, k | 0 <= j < k < |next|
        ensures next[j] != next[k]
      {
        assert next[j] == moves[j];
        if k == |moves| {
          assert moves[j] in moves;
        }
      }
    }
    assert |seen + {c} - {own}| == |seen - {own}| + 1 by {
      assert seen + {c} - {own} == (seen - {own}) + {c};
      assert c !in seen - {own};
    }
  }



  /** The inner loop of `available_moves`: vertex `idx` with each colour of `used` but `own`. */
  method MovesFor(idx: int, own: int, used: set<int>) returns (moves: seq<ColourMove>)
    ensures forall m :: m in moves <==> m.idx == idx && m.color in used && m.color != own
    ensures forall j :: 0 <= j < |moves| ==> moves[j].idx == idx
    ensures forall j, k :: 0 <= j < k < |moves| ==> moves[j] != moves[k]
    ensures |moves| == |used - {own}|
  {
    moves := [];
    var rest := used;
    ghost var seen: set<int> := {};
    while rest != {}
      invariant rest == used - seen && seen <= used
      invariant MovesForSoFar(idx, own, seen, moves)
      decreases |rest|
    {
      HasElement(rest);
      var c :| c in rest;
      TakeOne(used, seen, c);
      MovesForStep(idx, own, seen, moves, c);
      if c != own {
        moves := moves + [ColourMove(idx, c)];
      }
      rest := rest - {c};
      seen := seen + {c};
    }
    MovesForDone(idx, own, used, seen, moves);
  }

  lemma MovesForDone(idx: int, own: int, used: set<int>, seen: set<int>, moves: seq<ColourMove>)
    requires used - seen == {} && seen <= used
    requires MovesForSoFar(idx, own, seen, moves)
    ensures forall m :: m in moves <==> m.idx == idx && m.color in used && m.color != own
    ensures forall j :: 0 <= j < |moves| ==> moves[j].idx == idx
    ensures forall j, k :: 0 <= j < k < |moves| ==> moves[j] != moves[k]
    ensures |moves| == |used - {own}|
  {
    assert seen == used;
  }


  /**
   * `available_moves` of both `ChangeColor` and `KempeChain`: for every vertex in
   * ascending order, every colour in use other than the vertex's own.  The colours come
   * from a Python set, whose iteration order the model leaves open.
   */
  method AvailableMoves(col: Coloring, n: nat) returns (moves: seq<ColourMove>)
    requires n <= |col|
    ensures forall m :: m in moves <==>
      0 <= m.idx < n && m.color in ColourSet(col) && m.color != col[m.idx].color
    ensures forall j, k :: 0 <= j < k < |moves| ==> moves[j].idx <= moves[k].idx && moves[j] != moves[k]
    ensures |moves| == n * (NumColors(col) - 1)
  {
    var used := ColourSet(col);
    moves := [];
    for idx := 0 to n
      invariant forall m :: m in moves <==>
        0 <= m.idx < idx && m.color in used && m.color != col[m.idx].color
      invariant forall j, k :: 0 <= j < k < |moves| ==> moves[j].idx <= moves[k].idx && moves[j] != moves[k]
      invariant forall j :: 0 <= j < |moves| ==> moves[j].idx < idx
      invariant |moves| == idx * (|used| - 1)
    {
      var own := col[idx].color;
      assert own in used;
      var more := MovesFor(idx, own, used);
      assert |used - {own}| == |used| - 1;
      assert (idx + 1) * (|used| - 1) == idx * (|used| - 1) + (|used| - 1);
      ghost var prev := moves;
      moves := moves + more;
      assert forall m :: m in moves <==> m in prev || m in more;
    }
  }

  // ------------------------------------------------------------------ KempeChain

  /** `KempeChainMove.graph`: the neighbours of every vertex. */
  type Graph = map<int, set<int>>

  /** Every neighbour is itself a vertex of the graph and a position in the colouring. */
  predicate WellFormed(graph: Graph, size: int) {
    forall v, u :: v in graph && u in graph[v] ==> u in graph && 0 <= u < size
  }

  lemma NeighbourInRange(graph: Graph, size: int, v: int, u: int)
    requires WellFormed(graph, size) && v in graph && u in graph[v]
    ensures u in graph && 0 <= u < size
  {
  }

  /** The neighbours of the vertices in `chain`. */
  function Step(graph: Graph, chain: set<int>): set<int> {
    set d, u | d in chain && d in graph && u in graph[d] :: u
  }

  /** What one pass of the `while` body finds: neighbours of the chain with colour `newColor`. */
  function Hits(graph: Graph, col: Coloring, chain: set<int>, newColor: int): set<int> {
    set u | 0 <= u < |col| && col[u].color == newColor && u in Step(graph, chain)
  }

  /** The vertices of `r` take colour `c`. */
  function Recolour(col: Coloring, r: set<int>, c: int): (res: Coloring)
    ensures |res| == |col|
  {
    seq(|col|, i requires 0 <= i < |col| => if i in r then col[i].(color := c) else col[i])
  }

  lemma RecolourOneMore(col: Coloring, r: set<int>, u: int, c: int)
    requires 0 <= u < |col|
    ensures Recolour(col, r + {u}, c) == Recolour(col, r, c)[u := Recolour(col, r, c)[u].(color := c)]
  {
  }

  /**
   * The rounds of `_kempe_chain`: while the chain is non-empty, the neighbours of the
   * chain coloured `newColor` take `oldColor`, become the chain, and the two colours swap
   * roles.  The source gives no bound on the number of rounds; after `fuel` rounds with
   * a non-empty chain the model gives None.
   */
  function KempeRounds(graph: Graph, col: Coloring, chain: set<int>, newColor: int, oldColor: int, fuel: nat): Option<Coloring>
    decreases fuel
  {
    if chain == {} then Some(col)
    else if fuel == 0 then None
    else
      var hits := Hits(graph, col, chain, newColor);
      KempeRounds(graph, Recolour(col, hits, oldColor), hits, oldColor, newColor, fuel - 1)
  }

  /** `KempeChainMove.make`: recolour `idx`, then run the chain from it. */
  function KempeMake(graph: Graph, col: Coloring, idx: int, color: int, fuel: nat): Option<Coloring>
    requires 0 <= idx < |col|
  {
    KempeRounds(graph, col[idx := col[idx].(color := color)], {idx}, color, col[idx].color, fuel)
  }

  /** Neighbours of `c` already seen that had colour `newColor`. */
  function SeenHits(col: Coloring, seen: set<int>, newColor: int): set<int> {
    set u | u in seen && 0 <= u < |col| && col[u].color == newColor
  }

  /** What the inner `for` loop of `_kempe_chain` has done once it has seen `seen`. */
  ghost predicate NeighboursSoFar(col: Coloring, newColor: int, oldColor: int, links0: set<int>,
                                  seen: set<int>, next: Coloring, links: set<int>) {
    links == links0 + SeenHits(col, seen, newColor) &&
    next == Recolour(col, links, oldColor) &&
    forall u :: u in links ==> 0 <= u < |col| && col[u].color == newColor
  }

  lemma NeighboursStep(col: Coloring, newColor: int, oldColor: int, links0: set<int>,
                       seen: set<int>, next: Coloring, links: set<int>, u: int)
    requires NeighboursSoFar(col, newColor, oldColor, links0, seen, next, links)
    requires 0 <= u < |col|
    ensures next[u].color == newColor ==>
      NeighboursSoFar(col, newColor, oldColor, links0, seen + {u},
                      next[u := next[u].(color := oldColor)], links + {u})
    ensures next[u].color != newColor ==>
      NeighboursSoFar(col, newColor, oldColor, links0, seen + {u}, next, links)
  {
    RecolourOneMore(col, links, u, oldColor);
    if next[u].color == newColor {
      assert col[u].color == newColor;
      assert SeenHits(col, seen + {u}, newColor) == SeenHits(col, seen, newColor) + {u};
    } else {
      assert u in links || col[u].color != newColor;
    }
  }

  /** The inner `for` loop of `_kempe_chain`: the neighbours of one chain vertex `c`. */
  method RecolourNeighbours(graph: Graph, col: Coloring, c: int, newColor: int, oldColor: int,
                            next0: Coloring, links0: set<int>)
    returns (next: Coloring, links: set<int>)
    requires WellFormed(graph, |col|) && c in graph
    requires next0 == Recolour(col, links0, oldColor)
    requires forall u :: u in links0 ==> 0 <= u < |col| && col[u].color == newColor
    ensures links == links0 + SeenHits(col, graph[c], newColor)
    ensures next == Recolour(col, links, oldColor)
    ensures forall u :: u in links ==> 0 <= u < |col| && col[u].color == newColor
  {
    next, links := next0, links0;
    var rest := graph[c];
    ghost var seen: set<int> := {};
    assert SeenHits(col, seen, newColor) == {};
    while rest != {}
      invariant rest == graph[c] - seen && seen <= graph[c]
      invariant NeighboursSoFar(col, newColor, oldColor, links0, seen, next, links)
      decreases |rest|
    {
      HasElement(rest);
      var u :| u in rest;
      TakeOne(graph[c], seen, u);
      NeighbourInRange(graph, |col|, c, u);
      NeighboursStep(col, newColor, oldColor, links0, seen, next, links, u);
      if next[u].color == newColor {
        next := next[u := next[u].(color := oldColor)];
        links := links + {u};
      }
      rest := rest - {u};
      seen := seen + {u};
    }
    assert seen == graph[c];
  }

  /** One more chain vertex adds its neighbours of the colour sought. */
  lemma HitsAdd(graph: Graph, col: Coloring, done: set<int>, c: int, newColor: int)
    requires WellFormed(graph, |col|) && c in graph
    ensures Hits(graph, col, done + {c}, newColor) ==
      Hits(graph, col, done, newColor) + SeenHits(col, graph[c], newColor)
  {
    assert forall u :: u in Step(graph, done + {c}) <==> u in Step(graph, done) || u in graph[c];
    forall u | u in graph[c]
      ensures 0 <= u < |col|
    {
      NeighbourInRange(graph, |col|, c, u);
    }
  }

  /** One pass of the `while` body of `_kempe_chain`: the two nested `for` loops. */
  method RecolourRound(graph: Graph, col: Coloring, chain: set<int>, newColor: int, oldColor: int)
    returns (next: Coloring, links: set<int>)
    requires WellFormed(graph, |col|) && forall c :: c in chain ==> c in graph
    ensures links == Hits(graph, col, chain, newColor)
    ensures next == Recolour(col, links, oldColor)
    ensures forall c :: c in links ==> c in graph
  {
    next, links := col, {};
    var todo := chain;
    ghost var done: set<int> := {};
    while todo != {}
      invariant todo == chain - done && done <= chain
      invariant links == Hits(graph, col, done, newColor)
      invariant next == Recolour(col, links, oldColor)
      invariant forall u :: u in links ==> 0 <= u < |col| && col[u].color == newColor
      decreases |todo|
    {
      HasElement(todo);
      var c :| c in todo;
      TakeOne(chain, done, c);
      ghost var before := links;
      next, links := RecolourNeighbours(graph, col, c, newColor, oldColor, next, links);
      HitsAdd(graph, col, done, c, newColor);
      todo := todo - {c};
      done := done + {c};
    }
    assert done == chain;
    HitsInGraph(graph, col, chain, newColor);
  }

  /** The vertices the chain reaches are vertices of the graph. */
  lemma HitsInGraph(graph: Graph, col: Coloring, chain: set<int>, newColor: int)
    requires WellFormed(graph, |col|)
    ensures forall u :: u in Hits(graph, col, chain, newColor) ==> u in graph
  {
    forall u | u in Hits(graph, col, chain, newColor)
      ensures u in graph
    {
      var d :| d in chain && d in graph && u in graph[d];
      NeighbourInRange(graph, |col|, d, u);
    }
  }

  /** `_kempe_chain` after `make` has recoloured `idx`, run for at most `fuel` rounds. */
  method KempeChain(graph: Graph, coloring: Coloring, idx: int, color: int, fuel: nat) returns (r: Option<Coloring>)
    requires WellFormed(graph, |coloring|) && 0 <= idx < |coloring| && idx in graph
    ensures r == KempeMake(graph, coloring, idx, color, fuel)
  {
    var oldColor := coloring[idx].color;
    var col := coloring[idx := coloring[idx].(color := color)];
    var newColor := color;
    var chain: set<int> := {idx};
    var rounds := 0;
    while chain != {} && rounds < fuel
      invariant rounds <= fuel && |col| == |coloring|
      invariant forall c :: c in chain ==> c in graph
      invariant KempeRounds(graph, col, chain, newColor, oldColor, fuel - rounds) ==
        KempeMake(graph, coloring, idx, color, fuel)
      decreases fuel - rounds
    {
      col, chain := RecolourRound(graph, col, chain, newColor, oldColor);
      newColor, oldColor := oldColor, newColor;
      rounds := rounds + 1;
    }
    if chain == {} {
      r := Some(col);
    } else {
      r := None;
    }
  }

  // ------------------------------------------------------------------ properties of the chain

  /** The chain keeps the length and every idx field; it changes colours only. */
  lemma {:induction false} KempeShape(graph: Graph, col: Coloring, chain: set<int>, newColor: int, oldColor: int, fuel: nat)
    ensures var r := KempeRounds(graph, col, chain, newColor, oldColor, fuel);
      r.Some? ==> |r.value| == |col| && forall i :: 0 <= i < |col| ==> r.value[i].idx == col[i].idx
    decreases fuel
  {
    if chain != {} && fuel > 0 {
      var hits := Hits(graph, col, chain, newColor);
      KempeShape(graph, Recolour(col, hits, oldColor), hits, oldColor, newColor, fuel - 1);
    }
  }

  /** Only the two colours of the chain are involved: a vertex that changes goes from one to the other. */
  lemma {:induction false} KempeTwoColours(graph: Graph, col: Coloring, chain: set<int>, newColor: int, oldColor: int, fuel: nat)
    ensures var r := KempeRounds(graph, col, chain, newColor, oldColor, fuel);
      r.Some? ==> (|r.value| == |col| &&
        forall i :: 0 <= i < |col| ==> (r.value[i].color == col[i].color ||
          ((col[i].color == newColor || col[i].color == oldColor) &&
           (r.value[i].color == newColor || r.value[i].color == oldColor))))
    decreases fuel
  {
    KempeShape(graph, col, chain, newColor, oldColor, fuel);
    if chain != {} && fuel > 0 {
      var hits := Hits(graph, col, chain, newColor);
      var mid := Recolour(col, hits, oldColor);
      KempeTwoColours(graph, mid, hits, oldColor, newColor, fuel - 1);
    }
  }

  /** The vertices at most k steps away from `s`. */
  function Reach(graph: Graph, s: set<int>, k: nat): set<int> {
    if k == 0 then s else Reach(graph, s, k - 1) + Step(graph, Reach(graph, s, k - 1))
  }

  lemma StepMonotone(graph: Graph, s: set<int>, t: set<int>)
    requires s <= t
    ensures Step(graph, s) <= Step(graph, t)
  {
  }

  lemma {:induction false} ReachMonotone(graph: Graph, s: set<int>, t: set<int>, k: nat)
    requires s <= t
    ensures Reach(graph, s, k) <= Reach(graph, t, k)
  {
    if k > 0 {
      ReachMonotone(graph, s, t, k - 1);
      StepMonotone(graph, Reach(graph, s, k - 1), Reach(graph, t, k - 1));
    }
  }

  lemma {:induction false} ReachGrows(graph: Graph, s: set<int>, j: nat, k: nat)
    requires j <= k
    ensures Reach(graph, s, j) <= Reach(graph, s, k)
  {
    if j < k {
      ReachGrows(graph, s, j, k - 1);
    }
  }

  /** k steps from the neighbours of `s` stay within k + 1 steps of `s`. */
  lemma {:induction false} ReachFromStep(graph: Graph, s: set<int>, k: nat)
    ensures Reach(graph, Step(graph, s), k) <= Reach(graph, s, k + 1)
  {
    if k > 0 {
      ReachFromStep(graph, s, k - 1);
      StepMonotone(graph, Reach(graph, Step(graph, s), k - 1), Reach(graph, s, k));
    }
  }

  /** Vertices found from the chain, and whatever lies k - 1 steps from them, are within k steps. */
  lemma HitsNearChain(graph: Graph, chain: set<int>, hits: set<int>, k: nat)
    requires hits <= Step(graph, chain) && k >= 1
    ensures hits <= Reach(graph, chain, k)
    ensures Reach(graph, hits, k - 1) <= Reach(graph, chain, k)
  {
    ReachMonotone(graph, hits, Step(graph, chain), k - 1);
    ReachFromStep(graph, chain, k - 1);
    ReachGrows(graph, chain, 1, k);
    assert Reach(graph, chain, 1) == chain + Step(graph, chain);
  }

  /** Recolouring leaves the vertices outside `r` as they were. */
  lemma RecolourOutside(col: Coloring, r: set<int>, c: int)
    ensures forall i :: 0 <= i < |col| && i !in r ==> Recolour(col, r, c)[i] == col[i]
  {
  }

  /** `after` has the shape of `before` and differs from it only at indices in `near`. */
  predicate ChangedWithin(before: Coloring, after: Coloring, near: set<int>) {
    |after| == |before| && forall i :: 0 <= i < |before| && after[i] != before[i] ==> i in near
  }

  /** A vertex that changes lies at most `fuel` steps from the starting chain. */
  lemma {:induction false} KempeLocal(graph: Graph, col: Coloring, chain: set<int>, newColor: int, oldColor: int, fuel: nat)
    ensures var r := KempeRounds(graph, col, chain, newColor, oldColor, fuel);
      r.Some? ==> ChangedWithin(col, r.value, Reach(graph, chain, fuel))
    decreases fuel
  {
    if chain != {} && fuel > 0 {
      var hits := Hits(graph, col, chain, newColor);
      KempeLocal(graph, Recolour(col, hits, oldColor), hits, oldColor, newColor, fuel - 1);
      KempeLocalStep(graph, col, chain, newColor, oldColor, fuel);
    }
  }

  /** One round of KempeLocal: the first pass changes only hits, the rest stays near them. */
  lemma KempeLocalStep(graph: Graph, col: Coloring, chain: set<int>, newColor: int, oldColor: int, fuel: nat)
    requires chain != {} && fuel > 0
    requires var hits := Hits(graph, col, chain, newColor);
      var r := KempeRounds(graph, Recolour(col, hits, oldColor), hits, oldColor, newColor, fuel - 1);
      r.Some? ==> ChangedWithin(Recolour(col, hits, oldColor), r.value, Reach(graph, hits, fuel - 1))
    ensures var r := KempeRounds(graph, col, chain, newColor, oldColor, fuel);
      r.Some? ==> ChangedWithin(col, r.value, Reach(graph, chain, fuel))
  {
    var hits := Hits(graph, col, chain, newColor);
    var mid := Recolour(col, hits, oldColor);
    var r := KempeRounds(graph, mid, hits, oldColor, newColor, fuel - 1);
    assert KempeRounds(graph, col, chain, newColor, oldColor, fuel) == r;
    HitsNearChain(graph, chain, hits, fuel);
    RecolourOutside(col, hits, oldColor);
    if r.Some? {
      ChangesCompose(col, mid, r.value, hits, Reach(graph, hits, fuel - 1), Reach(graph, chain, fuel));
    }
  }

  /**
   * A vertex changed by two passes was changed by the first (so lies in `first`) or
   * by the second (so lies in `second`); both sets lie within `near`.
   */
  lemma ChangesCompose(col: Coloring, mid: Coloring, last: Coloring, first: set<int>,
                       second: set<int>, near: set<int>)
    requires ChangedWithin(col, mid, first) && ChangedWithin(mid, last, second)
    requires first <= near && second <= near
    ensures ChangedWithin(col, last, near)
  {
    forall i | 0 <= i < |col| && last[i] != col[i]
      ensures i in near
    {
      if i !in first {
        assert last[i] != mid[i];
      }
    }
  }

  /** `make` changes only vertices within `fuel` steps of `idx`, and only between the two colours. */
  lemma KempeMakeLocal(graph: Graph, col: Coloring, idx: int, color: int, fuel: nat)
    requires 0 <= idx < |col|
    ensures var r := KempeMake(graph, col, idx, color, fuel);
      r.Some? ==> (|r.value| == |col| &&
        forall i :: 0 <= i < |col| && r.value[i] != col[i] ==>
          (i in Reach(graph, {idx}, fuel) &&
           (col[i].color == color || col[i].color == col[idx].color) &&
           (r.value[i].color == color || r.value[i].color == col[idx].color) &&
           r.value[i].idx == col[i].idx))
  {
    var start := col[idx := col[idx].(color := color)];
    var r := KempeMake(graph, col, idx, color, fuel);
    KempeShape(graph, start, {idx}, color, col[idx].color, fuel);
    KempeLocal(graph, start, {idx}, color, col[idx].color, fuel);
    KempeTwoColours(graph, start, {idx}, color, col[idx].color, fuel);
    ReachGrows(graph, {idx}, 0, fuel);
    if r.Some? {
      forall i | 0 <= i < |col| && r.value[i] != col[i]
        ensures i in Reach(graph, {idx}, fuel)
        ensures col[i].color == color || col[i].color == col[idx].color
        ensures r.value[i].color == color || r.value[i].color == col[idx].color
      {
        if i == idx {
          assert idx in Reach(graph, {idx}, 0);
        } else {
          assert start[i] == col[i];
        }
      }
    }
  }

  /**
   * When no neighbour of `idx` has the new colour the chain stops after one round:
   * `make` recolours `idx` alone, and no neighbour of `idx` shares its colour.
   */
  lemma KempeFreshColour(graph: Graph, col: Coloring, idx: int, color: int, fuel: nat)
    requires WellFormed(graph, |col|) && 0 <= idx < |col| && idx in graph && fuel >= 1
    requires forall u :: u in graph[idx] ==> 0 <= u < |col| && u != idx && col[u].color != color
    ensures KempeMake(graph, col, idx, color, fuel) == Some(col[idx := col[idx].(color := color)])
    ensures forall u :: u in graph[idx] ==>
      0 <= u < |col| && col[idx := col[idx].(color := color)][u].color != color
  {
    var start := col[idx := col[idx].(color := color)];
    assert Step(graph, {idx}) == graph[idx] by {
      forall u | u in graph[idx]
        ensures u in Step(graph, {idx})
      {
        assert idx in {idx} && idx in graph;
      }
    }
    assert Hits(graph, start, {idx}, color) == {};
    assert Recolour(start, {}, col[idx].color) == start;
    assert KempeRounds(graph, start, {idx}, color, col[idx].color, fuel) ==
      KempeRounds(graph, start, {}, col[idx].color, color, fuel - 1);
  }

  // ------------------------------------------------------------------ the chain repairs

  /** Adjacency goes both ways, as in a graph built from undirected edges. */
  predicate Symmetric(graph: Graph) {
    forall v, u :: v in graph && u in graph[v] ==> u in graph && v in graph[u]
  }

  /** No two adjacent vertices share a colour. */
  predicate Proper(graph: Graph, col: Coloring) {
    forall v, u :: v in graph && u in graph[v] && 0 <= v < |col| && 0 <= u < |col| ==>
      col[v].color != col[u].color
  }

  /**
   * What the loop of `_kempe_chain` keeps: every pair of adjacent vertices that share a
   * colour touches the chain, and the colour they share is the one the next round seeks.
   */
  predicate ConflictsAtChain(graph: Graph, col: Coloring, chain: set<int>, newColor: int) {
    forall v, u ::
      (v in graph && u in graph[v] && 0 <= v < |col| && 0 <= u < |col| && col[v].color == col[u].color) ==>
        (v in chain || u in chain) && col[v].color == newColor
  }

  /** Recolouring `idx` in a proper colouring creates conflicts only at `idx`, in the new colour. */
  lemma StartConflicts(graph: Graph, col: Coloring, idx: int, color: int)
    requires Proper(graph, col) && 0 <= idx < |col|
    ensures ConflictsAtChain(graph, col[idx := col[idx].(color := color)], {idx}, color)
  {
  }

  /**
   * One round keeps the invariant: the vertices it recolours were the chain's conflicts,
   * and every conflict it creates is at one of them, in the colour the next round seeks.
   */
  lemma RoundConflicts(graph: Graph, col: Coloring, chain: set<int>, newColor: int, oldColor: int)
    requires WellFormed(graph, |col|) && Symmetric(graph)
    requires ConflictsAtChain(graph, col, chain, newColor)
    ensures WellFormed(graph, |Recolour(col, Hits(graph, col, chain, newColor), oldColor)|)
    ensures ConflictsAtChain(graph, Recolour(col, Hits(graph, col, chain, newColor), oldColor),
                             Hits(graph, col, chain, newColor), oldColor)
  {
    var hits := Hits(graph, col, chain, newColor);
    var mid := Recolour(col, hits, oldColor);
    RecolourOutside(col, hits, oldColor);
    forall v, u | v in graph && u in graph[v] && 0 <= v < |mid| && 0 <= u < |mid| &&
      mid[v].color == mid[u].color
      ensures (v in hits || u in hits) && mid[v].color == oldColor
    {
      if v !in hits && u !in hits {
        ChainConflictHit(graph, col, chain, newColor, v, u);
        assert false;
      }
    }
  }

  /** A conflict at the chain is at a vertex the round recolours. */
  lemma ChainConflictHit(graph: Graph, col: Coloring, chain: set<int>, newColor: int, v: int, u: int)
    requires WellFormed(graph, |col|) && Symmetric(graph)
    requires ConflictsAtChain(graph, col, chain, newColor)
    requires v in graph && u in graph[v] && 0 <= v < |col| && 0 <= u < |col| && col[v].color == col[u].color
    ensures v in Hits(graph, col, chain, newColor) || u in Hits(graph, col, chain, newColor)
  {
    if v in chain {
      assert u in Step(graph, chain);
    } else {
      assert v in Step(graph, chain) by {
        assert u in chain && u in graph && v in graph[u];
      }
    }
  }

  /** A finished chain's colouring is proper (an unfinished chain promises nothing). */
  predicate ProperResult(graph: Graph, r: Option<Coloring>) {
    r.Some? ==> Proper(graph, r.value)
  }

  /** When the rounds finish, the invariant leaves no conflict at all. */
  lemma {:induction false} RoundsProper(graph: Graph, col: Coloring, chain: set<int>, newColor: int, oldColor: int, fuel: nat)
    requires WellFormed(graph, |col|) && Symmetric(graph)
    requires ConflictsAtChain(graph, col, chain, newColor)
    ensures ProperResult(graph, KempeRounds(graph, col, chain, newColor, oldColor, fuel))
    decreases fuel
  {
    if chain != {} && fuel > 0 {
      var hits := Hits(graph, col, chain, newColor);
      RoundConflicts(graph, col, chain, newColor, oldColor);
      RoundsProper(graph, Recolour(col, hits, oldColor), hits, oldColor, newColor, fuel - 1);
      RoundsProperStep(graph, col, chain, newColor, oldColor, fuel);
    } else if chain == {} {
      NoChainProper(graph, col, chain, newColor);
    }
  }

  /** With the chain empty, the invariant says the colouring is proper. */
  lemma NoChainProper(graph: Graph, col: Coloring, chain: set<int>, newColor: int)
    requires ConflictsAtChain(graph, col, chain, newColor) && chain == {}
    ensures Proper(graph, col)
  {
  }

  /** One round of RoundsProper: the result is the rest of the rounds' result. */
  lemma RoundsProperStep(graph: Graph, col: Coloring, chain: set<int>, newColor: int, oldColor: int, fuel: nat)
    requires chain != {} && fuel > 0
    requires ProperResult(graph, KempeRounds(graph, Recolour(col, Hits(graph, col, chain, newColor), oldColor),
                                             Hits(graph, col, chain, newColor), oldColor, newColor, fuel - 1))
    ensures ProperResult(graph, KempeRounds(graph, col, chain, newColor, oldColor, fuel))
  {
  }

  /**
   * A Kempe move made from a proper colouring of an undirected graph yields a proper
   * colouring whenever its chain finishes: in particular no neighbour of `idx` then
   * shares its colour.
   */
  lemma KempeMakeProper(graph: Graph, col: Coloring, idx: int, color: int, fuel: nat)
    requires WellFormed(graph, |col|) && Symmetric(graph) && Proper(graph, col) && 0 <= idx < |col|
    ensures var r := KempeMake(graph, col, idx, color, fuel);
      r.Some? ==>
        (|r.value| == |col| && Proper(graph, r.value) &&
         (idx in graph ==> forall u :: u in graph[idx] ==> 0 <= u < |col| && r.value[u].color != r.value[idx].color))
  {
    var start := col[idx := col[idx].(color := color)];
    var r := KempeMake(graph, col, idx, color, fuel);
    assert r == KempeRounds(graph, start, {idx}, color, col[idx].color, fuel);
    StartConflicts(graph, col, idx, color);
    KempeShape(graph, start, {idx}, color, col[idx].color, fuel);
    RoundsProper(graph, start, {idx}, color, col[idx].color, fuel);
    if r.Some? && idx in graph {
      forall u | u in graph[idx]
        ensures 0 <= u < |col| && r.value[u].color != r.value[idx].color
      {
        NeighbourInRange(graph, |col|, idx, u);
      }
    }
  }

  /** `now` and `was` are the two colours `a` and `b`, one each. */
  predicate Swapped(now: int, was: int, a: int, b: int) {
    (now == a && was == b) || (now == b && was == a)
  }

  /**
   * What the rounds keep after `make` recoloured `idx` of `orig` to `color`: `idx` has
   * `color`; the colours sought and given are `color` and idx's old colour, in some order;
   * a vertex that has changed swapped one of those colours for the other; and every chain
   * vertex now has the colour sought, having had the colour given in `orig`.
   */
  predicate KeepsColour(orig: Coloring, idx: int, color: int, col: Coloring, chain: set<int>,
                        newColor: int, oldColor: int) {
    |col| == |orig| && 0 <= idx < |orig| && col[idx].color == color &&
    ((newColor == color && oldColor == orig[idx].color) || (newColor == orig[idx].color && oldColor == color)) &&
    (forall w :: 0 <= w < |col| && col[w].color != orig[w].color ==>
      Swapped(col[w].color, orig[w].color, color, orig[idx].color)) &&
    (forall v :: v in chain ==> 0 <= v < |col| && col[v].color == newColor && orig[v].color == oldColor)
  }

  /**
   * A vertex a round recolours is not `idx` and still has its colour from `orig`: were it
   * `idx`, or had it changed before, it would share its `orig` colour with the chain vertex
   * next to it, and `orig` is proper.
   */
  lemma HitUnchanged(graph: Graph, orig: Coloring, idx: int, color: int, col: Coloring, chain: set<int>,
                     newColor: int, oldColor: int, u: int)
    requires Proper(graph, orig)
    requires KeepsColour(orig, idx, color, col, chain, newColor, oldColor)
    requires u in Hits(graph, col, chain, newColor)
    ensures u != idx && orig[u].color == newColor
  {
    var d :| d in chain && d in graph && u in graph[d];
    assert orig[d].color != orig[u].color;
  }

  /** One round keeps KeepsColour. */
  lemma RoundKeepsColour(graph: Graph, orig: Coloring, idx: int, color: int, col: Coloring, chain: set<int>,
                         newColor: int, oldColor: int)
    requires Proper(graph, orig)
    requires KeepsColour(orig, idx, color, col, chain, newColor, oldColor)
    ensures KeepsColour(orig, idx, color, Recolour(col, Hits(graph, col, chain, newColor), oldColor),
                        Hits(graph, col, chain, newColor), oldColor, newColor)
  {
    var hits := Hits(graph, col, chain, newColor);
    forall u | u in hits
      ensures u != idx && orig[u].color == newColor
    {
      HitUnchanged(graph, orig, idx, color, col, chain, newColor, oldColor, u);
    }
  }

  /** A finished chain leaves `idx` with `color` (an unfinished chain promises nothing). */
  predicate ColourKept(r: Option<Coloring>, idx: int, color: int) {
    r.Some? ==> 0 <= idx < |r.value| && r.value[idx].color == color
  }

  lemma {:induction false} RoundsKeepColour(graph: Graph, orig: Coloring, idx: int, color: int, col: Coloring,
                                            chain: set<int>, newColor: int, oldColor: int, fuel: nat)
    requires Proper(graph, orig)
    requires KeepsColour(orig, idx, color, col, chain, newColor, oldColor)
    ensures ColourKept(KempeRounds(graph, col, chain, newColor, oldColor, fuel), idx, color)
    decreases fuel
  {
    if chain != {} && fuel > 0 {
      var hits := Hits(graph, col, chain, newColor);
      RoundKeepsColour(graph, orig, idx, color, col, chain, newColor, oldColor);
      RoundsKeepColour(graph, orig, idx, color, Recolour(col, hits, oldColor), hits, oldColor, newColor, fuel - 1);
      RoundsKeepColourStep(graph, col, chain, newColor, oldColor, fuel, idx, color);
    }
  }

  /** One round of RoundsKeepColour: the result is the rest of the rounds' result. */
  lemma RoundsKeepColourStep(graph: Graph, col: Coloring, chain: set<int>, newColor: int, oldColor: int, fuel: nat,
                             idx: int, color: int)
    requires chain != {} && fuel > 0
    requires ColourKept(KempeRounds(graph, Recolour(col, Hits(graph, col, chain, newColor), oldColor),
                                    Hits(graph, col, chain, newColor), oldColor, newColor, fuel - 1), idx, color)
    ensures ColourKept(KempeRounds(graph, col, chain, newColor, oldColor, fuel), idx, color)
  {
  }

  /**
   * `make` from a proper colouring leaves `idx` with the requested colour whenever the
   * chain finishes: no round ever recolours `idx` back.
   */
  lemma KempeMakeKeepsColour(graph: Graph, col: Coloring, idx: int, color: int, fuel: nat)
    requires Proper(graph, col) && 0 <= idx < |col|
    ensures var r := KempeMake(graph, col, idx, color, fuel);
      r.Some? ==> |r.value| == |col| && r.value[idx].color == color
  {
    var start := col[idx := col[idx].(color := color)];
    assert KempeMake(graph, col, idx, color, fuel) == KempeRounds(graph, start, {idx}, color, col[idx].color, fuel);
    KempeShape(graph, start, {idx}, color, col[idx].color, fuel);
    RoundsKeepColour(graph, col, idx, color, start, {idx}, color, col[idx].color, fuel);
  }

  // ------------------------------------------------------------------ a chain that never stops

  /** A triangle 0 - 1 - 2. */
  const Triangle: Graph := map[0 := {1, 2}, 1 := {0, 2}, 2 := {0, 1}]

  function C(a: int, b: int, c: int): Coloring {
    [Vertex(0, a), Vertex(1, b), Vertex(2, c)]
  }

  /** The six configurations the chain cycles through from the triangle coloured 0, 1, 0. */
  function TriangleState(k: nat): (Coloring, set<int>, int, int)
    requires k < 6
  {
    match k
    case 0 => (C(1, 1, 0), {0}, 1, 0)
    case 1 => (C(1, 0, 0), {1}, 0, 1)
    case 2 => (C(1, 0, 1), {2}, 1, 0)
    case 3 => (C(0, 0, 1), {0}, 0, 1)
    case 4 => (C(0, 1, 1), {1}, 1, 0)
    case _ => (C(0, 1, 0), {2}, 0, 1)
  }

  /**
   * From vertex v of the triangle, when only the next vertex has the colour sought, the
   * round recolours that vertex alone.
   */
  lemma TriangleStep(col: Coloring, v: int, newColor: int, oldColor: int)
    requires |col| == 3 && 0 <= v < 3
    requires col[(v + 1) % 3].color == newColor && col[(v + 2) % 3].color != newColor
    ensures var w := (v + 1) % 3;
      Hits(Triangle, col, {v}, newColor) == {w} &&
      Recolour(col, {w}, oldColor) == col[w := col[w].(color := oldColor)]
  {
    assert Triangle[v] == {(v + 1) % 3, (v + 2) % 3};
    assert Step(Triangle, {v}) == Triangle[v];
  }

  lemma TriangleRound(k: nat)
    requires k < 6
    ensures var (col, chain, newColor, oldColor) := TriangleState(k);
      var hits := Hits(Triangle, col, chain, newColor);
      (Recolour(col, hits, oldColor), hits, oldColor, newColor) == TriangleState((k + 1) % 6)
  {
    var (col, chain, newColor, oldColor) := TriangleState(k);
    var v := k % 3;
    var w := (v + 1) % 3;
    assert chain == {v};
    TriangleStep(col, v, newColor, oldColor);
    TriangleNext(k);
  }

  /** The next configuration recolours the vertex after `k % 3` and swaps the two colours. */
  lemma TriangleNext(k: nat)
    requires k < 6
    ensures var (col, _, newColor, oldColor) := TriangleState(k);
      var w := (k % 3 + 1) % 3;
      TriangleState((k + 1) % 6) == (col[w := col[w].(color := oldColor)], {w}, oldColor, newColor)
  {
    if k == 0 {
      assert C(1, 1, 0)[1 := Vertex(1, 0)] == C(1, 0, 0);
    } else if k == 1 {
      assert C(1, 0, 0)[2 := Vertex(2, 1)] == C(1, 0, 1);
    } else if k == 2 {
      assert C(1, 0, 1)[0 := Vertex(0, 0)] == C(0, 0, 1);
    } else if k == 3 {
      assert C(0, 0, 1)[1 := Vertex(1, 1)] == C(0, 1, 1);
    } else if k == 4 {
      assert C(0, 1, 1)[2 := Vertex(2, 0)] == C(0, 1, 0);
    } else {
      assert C(0, 1, 0)[0 := Vertex(0, 1)] == C(1, 1, 0);
    }
  }

  lemma {:induction false} TriangleRounds(k: nat, fuel: nat)
    requires k < 6
    ensures var (col, chain, newColor, oldColor) := TriangleState(k);
      KempeRounds(Triangle, col, chain, newColor, oldColor, fuel) == None
    decreases fuel
  {
    var (col, chain, newColor, oldColor) := TriangleState(k);
    assert k % 3 in chain;
    if fuel > 0 {
      TriangleRound(k);
      TriangleRounds((k + 1) % 6, fuel - 1);
      var hits := Hits(Triangle, col, chain, newColor);
      assert KempeRounds(Triangle, col, chain, newColor, oldColor, fuel) ==
        KempeRounds(Triangle, Recolour(col, hits, oldColor), hits, oldColor, newColor, fuel - 1);
    }
  }


  /**
   * On the triangle coloured 0, 1, 0 (already one conflict), recolouring vertex 0 to 1
   * starts a chain that never empties: whatever the bound, the rounds do not finish.
   */
  lemma KempeTriangleNeverEnds(fuel: nat)
    ensures KempeMake(Triangle, C(0, 1, 0), 0, 1, fuel) == None
  {
    assert C(0, 1, 0)[0 := C(0, 1, 0)[0].(color := 1)] == C(1, 1, 0);
    TriangleRounds(0, fuel);
  }
}
