/**
 * The magic-square move generator (local_search/problems/magic_square/move_generator.py):
 * `permutations(range(n), 4)` in its lexicographic order, filtered, each quadruple
 * (a, b, c, d) proposing to swap the cells (a, b) and (c, d).
 */
module MagicSquareMoves {

  /** `SwapNumbers(state, (a, b), (c, d))`: the two cells it swaps. */
  datatype SwapNumbers = SwapNumbers(first: (int, int), second: (int, int))

  /** Four different values. */
  predicate Distinct4(a: int, b: int, c: int, d: int) {
    a != b && a != c && a != d && b != c && b != d && c != d
  }

  /** A quadruple of `permutations(range(n), 4)`: four different values of [0, n). */
  predicate IsPerm4(q: (int, int, int, int), n: int) {
    0 <= q.0 < n && 0 <= q.1 < n && 0 <= q.2 < n && 0 <= q.3 < n && Distinct4(q.0, q.1, q.2, q.3)
  }

  /** Quadruple q comes strictly before quadruple p in lexicographic order. */
  predicate LexLess(q: (int, int, int, int), p: (int, int, int, int)) {
    q.0 < p.0 || (q.0 == p.0 && (q.1 < p.1 || (q.1 == p.1 && (q.2 < p.2 || (q.2 == p.2 && q.3 < p.3)))))
  }

  /** The last position: d from `lo` on, skipping a, b and c. */
  function FourthFrom(a: int, b: int, c: int, lo: int, n: int): (r: seq<(int, int, int, int)>)
    ensures forall q :: q in r <==>
      (q.0 == a && q.1 == b && q.2 == c && lo <= q.3 < n && q.3 != a && q.3 != b && q.3 != c)
    ensures forall i, j :: 0 <= i < j < |r| ==> r[i].3 < r[j].3
    decreases n - lo
  {
    if n <= lo then []
    else
      var rest := FourthFrom(a, b, c, lo + 1, n);
      assert forall j :: 0 <= j < |rest| ==> rest[j] in rest;
      if lo == a || lo == b || lo == c then rest else [(a, b, c, lo)] + rest
  }

  /** The third position: c from `lo` on, skipping a and b. */
  function ThirdFrom(a: int, b: int, lo: int, n: int): (r: seq<(int, int, int, int)>)
    ensures forall q :: q in r <==>
      (q.0 == a && q.1 == b && lo <= q.2 < n && 0 <= q.3 < n &&
       q.2 != a && q.2 != b && q.3 != a && q.3 != b && q.3 != q.2)
    ensures forall i, j :: 0 <= i < j < |r| ==> LexLess(r[i], r[j])
    decreases n - lo
  {
    if n <= lo then []
    else
      var rest := ThirdFrom(a, b, lo + 1, n);
      var here := if lo == a || lo == b then [] else FourthFrom(a, b, lo, 0, n);
      assert forall j :: 0 <= j < |rest| ==> rest[j] in rest;
      assert forall j :: 0 <= j < |here| ==> here[j] in here;
      here + rest
  }

  /** The second position: b from `lo` on, skipping a. */
  function SecondFrom(a: int, lo: int, n: int): (r: seq<(int, int, int, int)>)
    ensures forall q :: q in r <==>
      (q.0 == a && lo <= q.1 < n && q.1 != a && 0 <= q.2 < n && 0 <= q.3 < n &&
       q.2 != a && q.2 != q.1 && q.3 != a && q.3 != q.1 && q.3 != q.2)
    ensures forall i, j :: 0 <= i < j < |r| ==> LexLess(r[i], r[j])
    decreases n - lo
  {
    if n <= lo then []
    else
      var rest := SecondFrom(a, lo + 1, n);
      var here := if lo == a then [] else ThirdFrom(a, lo, 0, n);
      assert forall j :: 0 <= j < |rest| ==> rest[j] in rest;
      assert forall j :: 0 <= j < |here| ==> here[j] in here;
      here + rest
  }

  /** The first position: a from `lo` on. */
  function FirstFrom(lo: nat, n: int): (r: seq<(int, int, int, int)>)
    ensures forall q :: q in r <==> lo <= q.0 && IsPerm4(q, n)
    ensures forall i, j :: 0 <= i < j < |r| ==> LexLess(r[i], r[j])
    decreases n - lo
  {
    if n <= lo then []
    else
      var rest := FirstFrom(lo + 1, n);
      var here := SecondFrom(lo, 0, n);
      assert forall j :: 0 <= j < |rest| ==> rest[j] in rest;
      assert forall j :: 0 <= j < |here| ==> here[j] in here;
      assert forall q :: q in here <==> q.0 == lo && IsPerm4(q, n);
      assert forall q :: q in here + rest <==> q in here || q in rest;
      here + rest
  }

  /** `permutations(range(n), 4)`: every quadruple of different values once, in lexicographic order. */
  function Permutations4(n: int): (r: seq<(int, int, int, int)>)
    ensures forall q :: q in r <==> IsPerm4(q, n)
    ensures forall i, j :: 0 <= i < j < |r| ==> LexLess(r[i], r[j])
  {
    FirstFrom(0, n)
  }

  /** The filter `d > b or (d == b and c > a)`. */
  predicate Keep(q: (int, int, int, int)) {
    q.3 > q.1 || (q.3 == q.1 && q.2 > q.0)
  }

  /** The generator expression: kept quadruples, in order, as swaps. */
  function MovesOf(qs: seq<(int, int, int, int)>): (r: seq<SwapNumbers>)
    ensures forall m :: m in r <==> exists q :: q in qs && Keep(q) && m == SwapNumbers((q.0, q.1), (q.2, q.3))
  {
    if qs == [] then []
    else
      var q := qs[|qs| - 1];
      var front := MovesOf(qs[..|qs| - 1]);
      assert forall p :: p in qs <==> p in qs[..|qs| - 1] || p == q by {
        assert qs == qs[..|qs| - 1] + [q];
      }
      if Keep(q) then front + [SwapNumbers((q.0, q.1), (q.2, q.3))] else front
  }

  /** `available_moves` for a square of `n` rows. */
  function AvailableMoves(n: int): seq<SwapNumbers> {
    MovesOf(Permutations4(n))
  }

  /**
   * A move swaps (a, b) and (c, d) exactly when a, b, c, d are different values of
   * [0, n) with d > b: the `d == b` half of the filter never applies.
   */
  lemma AvailableMovesMeaning(n: int)
    ensures forall a, b, c, d :: SwapNumbers((a, b), (c, d)) in AvailableMoves(n) <==>
      IsPerm4((a, b, c, d), n) && d > b
  {
    forall a, b, c, d
      ensures SwapNumbers((a, b), (c, d)) in AvailableMoves(n) <==> IsPerm4((a, b, c, d), n) && d > b
    {
      if IsPerm4((a, b, c, d), n) && d > b {
        assert (a, b, c, d) in Permutations4(n);
      }
    }
  }

  /** The two swapped cells of every move differ: they lie in different columns. */
  lemma AvailableMovesSwapDifferentCells(n: int, m: SwapNumbers)
    requires m in AvailableMoves(n)
    ensures m.first != m.second && m.first.1 < m.second.1
  {
    AvailableMovesMeaning(n);
  }

  /** Fewer than four rows leave no move. */
  lemma NoMovesBelowFour(n: int)
    requires n < 4
    ensures AvailableMoves(n) == []
  {
    AvailableMovesMeaning(n);
    if AvailableMoves(n) != [] {
      assert false;
    }
  }
}
