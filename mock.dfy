/**
 * The "sum" problem the tests run the algorithms on (tests/mock.py): states are pairs
 * (a, b) with a + b fixed, the objective is a^2 + b^2, and a move shifts a by at most
 * two.
 */
module MockSumProblem {
  import opened Wrappers
  import opened Problem

  /** `MockState`. */
  datatype MockState = MockState(a: int, b: int)

  /** `MockGoal.objective_for`. */
  function Objective(s: MockState): (r: int)
    ensures r >= 0
  {
    s.a * s.a + s.b * s.b
  }

  /** `MockGoalMax` and `MockGoalMin`. */
  datatype MockGoal = MockGoalMax | MockGoalMin {
    function Type(): (t: GoalType)
      ensures t.Value() == (if MockGoalMax? then 1 else -1)
    {
      if MockGoalMax? then Max else Min
    }
  }

  /** `int(x)` for a float: truncation toward zero. */
  function Trunc(x: real): (r: int)
    ensures x >= 0.0 ==> r as real <= x < r as real + 1.0
    ensures x < 0.0 ==> r as real - 1.0 < x <= r as real
  {
    if x >= 0.0 then x.Floor else -((-x).Floor)
  }

  /** `MockState.suboptimal_state(sum)`. */
  function SuboptimalState(sum: int): MockState {
    var a := Trunc(0.25 * sum as real);
    MockState(a, sum - a)
  }

  /** `MockState.optimal_state(goal_type, sum)`. */
  function OptimalState(goalType: GoalType, sum: int): MockState {
    var a := if goalType == Min then Trunc(0.5 * sum as real) else 0;
    MockState(a, sum - a)
  }

  /** A quarter of a non-negative sum, rounded down, and the rest. */
  lemma SuboptimalStateShape(sum: int)
    requires sum >= 0
    ensures SuboptimalState(sum) == MockState(sum / 4, sum - sum / 4)
  {
    var a := Trunc(0.25 * sum as real);
    assert a as real <= 0.25 * sum as real < a as real + 1.0;
    assert 4 * a <= sum < 4 * a + 4;
  }

  /** `int(0.5 * sum)` for a non-negative sum is half of it, rounded down. */
  lemma HalfOf(sum: int)
    requires sum >= 0
    ensures Trunc(0.5 * sum as real) == sum / 2
  {
    var a := Trunc(0.5 * sum as real);
    assert 2 * a <= sum < 2 * a + 2;
  }

  /** Twice the objective of a state summing to s: s^2 plus the squared difference. */
  lemma ObjectiveIdentity(a: int, s: int)
    ensures 2 * Objective(MockState(a, s - a)) == s * s + (2 * a - s) * (2 * a - s)
  {
  }

  /** For MIN and a non-negative sum, no state with the same sum beats the optimal state. */
  lemma OptimalStateMin(sum: int, a: int)
    requires sum >= 0
    ensures Objective(OptimalState(Min, sum)) <= Objective(MockState(a, sum - a))
  {
    HalfOf(sum);
    var h := sum / 2;
    assert OptimalState(Min, sum) == MockState(h, sum - h);
    ObjectiveIdentity(h, sum);
    ObjectiveIdentity(a, sum);
    assert 2 * h - sum == 0 || (2 * h - sum == -1 && 2 * a - sum != 0);
    SquareBound(2 * h - sum, 2 * a - sum);
  }

  /** 0 or -1 squared is at most the square of any other value, non-zero in the second case. */
  lemma SquareBound(t: int, u: int)
    requires t == 0 || (t == -1 && u != 0)
    ensures t * t <= u * u
  {
    var v := if u >= 0 then u else -u;
    assert u * u == v * v;
    if t == 0 {
      MulNonNegative(v, v);
    } else {
      MulAtLeastOne(v);
    }
  }


  /** A state whose parts are non-negative has an objective of at most sum^2. */
  lemma ObjectiveAtMostSquare(a: int, sum: int)
    requires 0 <= a <= sum
    ensures Objective(MockState(a, sum - a)) <= sum * sum
  {
    assert Objective(MockState(a, sum - a)) == sum * sum - 2 * (a * (sum - a));
    MulNonNegative(a, sum - a);
  }

  /** For MAX, no state with non-negative parts beats the optimal state (0, sum). */
  lemma OptimalStateMax(sum: int, a: int)
    requires 0 <= a <= sum
    ensures Objective(MockState(a, sum - a)) <= Objective(OptimalState(Max, sum))
  {
    ObjectiveAtMostSquare(a, sum);
  }

  lemma MulAtLeastOne(u: int)
    requires u >= 1
    ensures u * u >= 1
  {
    MulNonNegative(u - 1, u);
  }

  lemma MulNonNegative(x: int, y: int)
    requires x >= 0 && y >= 0
    ensures x * y >= 0
  {
  }

  /** `MockMove(new_a, sum)`. */
  datatype MockMove = MockMove(newA: int, sum: int)

  /** `MockMove.make`. */
  function Make(m: MockMove): (s: MockState)
    ensures s.a + s.b == m.sum && s.a == m.newA
  {
    MockState(m.newA, m.sum - m.newA)
  }

  /** The moves for new_a in range(lo, hi). */
  function MovesFrom(lo: int, hi: int, sum: int): (r: seq<MockMove>)
    ensures |r| == if lo < hi then hi - lo else 0
    ensures forall i :: 0 <= i < |r| ==> r[i] == MockMove(lo + i, sum)
    decreases hi - lo
  {
    if hi <= lo then [] else [MockMove(lo, sum)] + MovesFrom(lo + 1, hi, sum)
  }

  function MaxOf(x: int, y: int): int {
    if x >= y then x else y
  }

  function MinOf(x: int, y: int): int {
    if x <= y then x else y
  }

  /** `MockMoveGenerator.available_moves`. */
  function AvailableMoves(s: MockState, sum: int): seq<MockMove> {
    MovesFrom(MaxOf(0, s.a - 2), MinOf(sum, s.a + 2), sum)
  }

  /**
   * Moves propose new_a ascending over [max(0, a - 2), min(sum, a + 2)); every state
   * they make keeps the sum and has a within [a - 2, a + 1] and [0, sum).
   */
  lemma AvailableMovesRange(s: MockState, sum: int)
    ensures var ms := AvailableMoves(s, sum);
      (forall i, j :: 0 <= i < j < |ms| ==> ms[i].newA < ms[j].newA) &&
      (forall m :: m in ms <==> m.sum == sum && MaxOf(0, s.a - 2) <= m.newA < MinOf(sum, s.a + 2))
    ensures forall m :: m in AvailableMoves(s, sum) ==>
      Make(m).a + Make(m).b == sum && s.a - 2 <= Make(m).a <= s.a + 1 && 0 <= Make(m).a < sum
  {
    var ms := AvailableMoves(s, sum);
    forall m: MockMove | m.sum == sum && MaxOf(0, s.a - 2) <= m.newA < MinOf(sum, s.a + 2)
      ensures m in ms
    {
      assert ms[m.newA - MaxOf(0, s.a - 2)] == m;
    }
  }

  /** `MockProblem.random_state` with the draw `r`: ValueError (None) for a negative sum. */
  function RandomState(sum: int, r: nat): (s: Option<MockState>)
    ensures s.Some? <==> sum >= 0
    ensures s.Some? ==> 0 <= s.value.a <= sum && s.value.a + s.value.b == sum
  {
    if sum + 1 > 0 then
      var a := r % (sum + 1);
      Some(MockState(a, sum - a))
    else None
  }

  /** The mock problem as the algorithms see it: its goal and the states its moves make. */
  function MockProblem(sum: int, goal: MockGoal): (p: Problem<MockState>)
    ensures p.goal == Goal(Objective, goal.Type())
    ensures forall s :: |p.available(s)| == |AvailableMoves(s, sum)|
    ensures forall s, i :: 0 <= i < |AvailableMoves(s, sum)| ==> p.available(s)[i] == Make(AvailableMoves(s, sum)[i])
  {
    Problem(Goal(Objective, goal.Type()),
            s => seq(|AvailableMoves(s, sum)|, i requires 0 <= i < |AvailableMoves(s, sum)| =>
                       Make(AvailableMoves(s, sum)[i])))
  }
}
