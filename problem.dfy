/**
 * The abstract problem (local_search/problems/base/problem.py and goal.py):
 * a goal (objective and direction) and a move generator, with the sign-normalised
 * `improvement` that every algorithm compares states with.
 */
module Problem {
  import opened Naming

  /** `GoalType`: MIN has the value -1 and MAX the value 1. */
  datatype GoalType = Min | Max {
    function Value(): (v: int)
      ensures v * v == 1
      ensures (v < 0) == Min?
    {
      if Min? then -1 else 1
    }
  }

  /** A goal: `objective_for` and `type()`. */
  datatype Goal<!S> = Goal(objective: S -> int, kind: GoalType)

  /**
   * A problem as the algorithms see it: its goal and its move generator.  A move
   * generator is given by the states its `available_moves` lead to (each move already
   * made), in enumeration order.
   */
  datatype Problem<!S> = Problem(goal: Goal<S>, available: S -> seq<S>)

  /** `Problem.objective_for`: a proxy to the goal. */
  function ObjectiveFor<S>(p: Problem<S>, s: S): int {
    p.goal.objective(s)
  }

  /** `Problem.improvement`: how much better `newState` is than `oldState`; positive means better. */
  function Improvement<S>(p: Problem<S>, newState: S, oldState: S): (r: int)
    ensures r > 0 <==>
      (p.goal.kind.Min? && ObjectiveFor(p, newState) < ObjectiveFor(p, oldState)) ||
      (p.goal.kind.Max? && ObjectiveFor(p, newState) > ObjectiveFor(p, oldState))
    ensures r == 0 <==> ObjectiveFor(p, newState) == ObjectiveFor(p, oldState)
  {
    (ObjectiveFor(p, newState) - ObjectiveFor(p, oldState)) * p.goal.kind.Value()
  }

  lemma ImprovementOfItself<S>(p: Problem<S>, s: S)
    ensures Improvement(p, s, s) == 0
  {
  }

  lemma ImprovementAntisymmetric<S>(p: Problem<S>, a: S, b: S)
    ensures Improvement(p, a, b) == -Improvement(p, b, a)
  {
  }

  /** Improvements add up along a chain of states. */
  lemma ImprovementAdditive<S>(p: Problem<S>, a: S, b: S, c: S)
    ensures Improvement(p, a, c) == Improvement(p, a, b) + Improvement(p, b, c)
  {
    if p.goal.kind.Min? {
      assert Improvement(p, a, c) == ObjectiveFor(p, c) - ObjectiveFor(p, a);
    } else {
      assert Improvement(p, a, c) == ObjectiveFor(p, a) - ObjectiveFor(p, c);
    }
  }

  /** The outcome of `validate_data`: it passes, or raises naming the missing parameters. */
  datatype Validation = Valid | MissingParams(missing: set<string>)

  /** `Problem.validate_data`: every constructor parameter must be a key of the data. */
  function ValidateData(params: set<string>, keys: set<string>): (r: Validation)
    ensures r.Valid? <==> params <= keys
    ensures r.MissingParams? ==> (r.missing != {} &&
      forall q :: q in r.missing <==> q in params && q !in keys)
  {
    var missing := params - keys;
    if missing != {} then MissingParams(missing)
    else
      assert forall q :: q in params ==> q !in missing;
      Valid
  }

  /** `Problem.asdict`: the registry keys of the problem, goal and move generator classes. */
  function AsDict(problemClass: string, goalClass: string, moveGeneratorClass: string): (d: map<string, string>)
    ensures d.Keys == {"name", "goal_name", "move_generator_name"}
    ensures d["name"] == CamelToSnake(problemClass)
    ensures d["goal_name"] == CamelToSnake(goalClass)
    ensures d["move_generator_name"] == CamelToSnake(moveGeneratorClass)
    ensures forall k :: k in d ==> NoUpper(d[k])
    ensures (d - {"name"}).Keys == {"goal_name", "move_generator_name"}
  {
    assert |"name"| == 4 && |"goal_name"| == 9 && |"move_generator_name"| == 19;
    map["name" := CamelToSnake(problemClass),
        "goal_name" := CamelToSnake(goalClass),
        "move_generator_name" := CamelToSnake(moveGeneratorClass)]
  }
}
