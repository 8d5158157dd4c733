/**
 * The four neighbour-selection rules of the hill-climbing family
 * (the four choice files under local_search/algorithms/hill_climbing).
 * Each rule scans a neighbourhood `ns` of `state` in enumeration order.  A
 * specification function gives the state the rule's loop ends with, lemmas say what
 * that state means, and a method with the source's loop is proved to compute it.
 */
module ClimbRules {
  import opened Wrappers
  import opened Problem

  datatype ClimbRule = BestChoice | WorstChoice | FirstChoice | RandomChoice

  predicate Improves<S>(p: Problem<S>, n: S, s: S) {
    Improvement(p, n, s) > 0
  }

  // ---------------------------------------------------------------- best choice

  /** `best_improving_state` after the loop has seen `ns`. */
  function BestFold<S>(p: Problem<S>, state: S, ns: seq<S>): S {
    if ns == [] then state
    else
      var best := BestFold(p, state, ns[..|ns| - 1]);
      var n := ns[|ns| - 1];
      if Improves(p, n, state) && Improves(p, n, best) then n else best
  }

  /**
   * Steepest ascent: the result is the state itself or an improving neighbour, no
   * neighbour beats it, and among equally good neighbours the first one seen wins.
   */
  lemma {:induction false} BestFoldIsFirstMaximum<S>(p: Problem<S>, state: S, ns: seq<S>)
    ensures Improvement(p, BestFold(p, state, ns), state) >= 0
    ensures BestFold(p, state, ns) == state ||
      (BestFold(p, state, ns) in ns && Improves(p, BestFold(p, state, ns), state))
    ensures forall n :: n in ns ==> Improvement(p, n, BestFold(p, state, ns)) <= 0
    ensures BestFold(p, state, ns) != state ==>
      exists k :: 0 <= k < |ns| && ns[k] == BestFold(p, state, ns) &&
        forall j :: 0 <= j < k ==> Improvement(p, ns[j], ns[k]) < 0
  {
    if ns != [] {
      var front := ns[..|ns| - 1];
      var b := BestFold(p, state, front);
      var n := ns[|ns| - 1];
      BestFoldIsFirstMaximum(p, state, front);
      assert ns == front + [n];
      ImprovementAdditive(p, n, b, state);
      if Improves(p, n, state) && Improves(p, n, b) {
        forall m | m in ns ensures Improvement(p, m, n) <= 0 {
          ImprovementAdditive(p, m, b, n);
        }
        forall j | 0 <= j < |ns| - 1 ensures Improvement(p, ns[j], n) < 0 {
          assert ns[j] in front;
          ImprovementAdditive(p, ns[j], b, n);
        }
      } else {
        if b != state {
          var k :| 0 <= k < |front| && front[k] == b &&
            forall j :: 0 <= j < k ==> Improvement(p, front[j], front[k]) < 0;
          assert ns[k] == b;
        }
      }
    }
  }

  /** With no improving neighbour the state is returned unchanged. */
  lemma BestFoldAtLocalOptimum<S>(p: Problem<S>, state: S, ns: seq<S>)
    requires forall n :: n in ns ==> !Improves(p, n, state)
    ensures BestFold(p, state, ns) == state
  {
    BestFoldIsFirstMaximum(p, state, ns);
  }

  /** `BestChoiceHillClimbing._climb_the_hill`. */
  method ClimbBest<S>(p: Problem<S>, state: S, ns: seq<S>) returns (best: S)
    ensures best == BestFold(p, state, ns)
  {
    best := state;
    for i := 0 to |ns|
      invariant best == BestFold(p, state, ns[..i])
    {
      var n := ns[i];
      assert ns[..i + 1][..i] == ns[..i];
      if Improves(p, n, state) {
        if Improves(p, n, best) {
          best := n;
        }
      }
    }
    assert ns[..|ns|] == ns;
  }

  // --------------------------------------------------------------- worst choice

  /** `worst_improving_state` after the loop has seen `ns` (`None` until a neighbour improves). */
  function WorstFold<S>(p: Problem<S>, state: S, ns: seq<S>): Option<S> {
    if ns == [] then None
    else
      var worst := WorstFold(p, state, ns[..|ns| - 1]);
      var n := ns[|ns| - 1];
      if !Improves(p, n, state) then worst
      else if worst.None? then Some(n)
      else if Improvement(p, n, worst.value) < 0 then Some(n)
      else worst
  }

  /** A choice exists exactly when some neighbour improves. */
  lemma {:induction false} WorstFoldNone<S>(p: Problem<S>, state: S, ns: seq<S>)
    ensures WorstFold(p, state, ns).None? <==> forall n :: n in ns ==> !Improves(p, n, state)
  {
    if ns != [] {
      var front := ns[..|ns| - 1];
      WorstFoldNone(p, state, front);
      assert ns == front + [ns[|ns| - 1]];
    }
  }

  /** The choice is an improving neighbour, and every improving neighbour is at least as good. */
  lemma {:induction false} WorstFoldLeast<S>(p: Problem<S>, state: S, ns: seq<S>)
    ensures WorstFold(p, state, ns).Some? ==>
      var w := WorstFold(p, state, ns).value;
      w in ns && Improves(p, w, state) &&
      forall n :: n in ns && Improves(p, n, state) ==> Improvement(p, n, w) >= 0
  {
    if ns != [] {
      var front := ns[..|ns| - 1];
      var w := WorstFold(p, state, front);
      var n := ns[|ns| - 1];
      WorstFoldLeast(p, state, front);
      assert ns == front + [n];
      if !Improves(p, n, state) {
      } else if w.None? {
        WorstFoldNone(p, state, front);
      } else if Improvement(p, n, w.value) < 0 {
        forall m | m in ns && Improves(p, m, state) ensures Improvement(p, m, n) >= 0 {
          ImprovementAdditive(p, m, w.value, n);
        }
      }
    }
  }

  /** Among equally good improving neighbours, the first one seen is the choice. */
  lemma {:induction false} WorstFoldFirst<S>(p: Problem<S>, state: S, ns: seq<S>)
    ensures WorstFold(p, state, ns).Some? ==>
      var w := WorstFold(p, state, ns).value;
      exists k :: 0 <= k < |ns| && ns[k] == w &&
        forall j :: 0 <= j < k && Improves(p, ns[j], state) ==> Improvement(p, ns[j], w) > 0
  {
    if ns != [] {
      var front := ns[..|ns| - 1];
      var w := WorstFold(p, state, front);
      var n := ns[|ns| - 1];
      var last := |ns| - 1;
      WorstFoldFirst(p, state, front);
      assert forall j :: 0 <= j < last ==> ns[j] == front[j];
      if !Improves(p, n, state) || (w.Some? && Improvement(p, n, w.value) >= 0) {
        if w.Some? {
          var k :| 0 <= k < |front| && front[k] == w.value &&
            forall j :: 0 <= j < k && Improves(p, front[j], state) ==> Improvement(p, front[j], w.value) > 0;
          assert ns[k] == w.value;
        }
      } else if w.None? {
        WorstFoldNone(p, state, front);
        forall j | 0 <= j < last ensures !Improves(p, ns[j], state) {
          assert front[j] in front;
        }
        assert ns[last] == n;
      } else {
        WorstFoldLeast(p, state, front);
        forall j | 0 <= j < last && Improves(p, ns[j], state) ensures Improvement(p, ns[j], n) > 0 {
          assert front[j] in front;
          ImprovementAdditive(p, ns[j], w.value, n);
        }
        assert ns[last] == n;
      }
    }
  }

  /**
   * The least improving neighbour: it exists exactly when some neighbour improves,
   * every improving neighbour is at least as good, and among equally good ones the
   * first one seen wins.
   */
  lemma WorstFoldIsFirstMinimum<S>(p: Problem<S>, state: S, ns: seq<S>)
    ensures WorstFold(p, state, ns).None? <==> forall n :: n in ns ==> !Improves(p, n, state)
    ensures WorstFold(p, state, ns).Some? ==>
      var w := WorstFold(p, state, ns).value;
      w in ns && Improves(p, w, state) &&
      (forall n :: n in ns && Improves(p, n, state) ==> Improvement(p, n, w) >= 0) &&
      exists k :: 0 <= k < |ns| && ns[k] == w &&
        forall j :: 0 <= j < k && Improves(p, ns[j], state) ==> Improvement(p, ns[j], w) > 0
  {
    WorstFoldNone(p, state, ns);
    WorstFoldLeast(p, state, ns);
    WorstFoldFirst(p, state, ns);
  }

  /** The state `WorstChoiceHillClimbing._climb_the_hill` returns. */
  function WorstChoiceOf<S>(p: Problem<S>, state: S, ns: seq<S>): S {
    match WorstFold(p, state, ns)
    case None => state
    case Some(w) => w
  }

  /** `WorstChoiceHillClimbing._climb_the_hill`. */
  method ClimbWorst<S>(p: Problem<S>, state: S, ns: seq<S>) returns (r: S)
    ensures r == WorstChoiceOf(p, state, ns)
  {
    var worst: Option<S> := None;
    for i := 0 to |ns|
      invariant worst == WorstFold(p, state, ns[..i])
    {
      var n := ns[i];
      assert ns[..i + 1][..i] == ns[..i];
      if Improves(p, n, state) {
        if worst.None? {
          worst := Some(n);
        } else if Improvement(p, n, worst.value) < 0 {
          worst := Some(n);
        }
      }
    }
    assert ns[..|ns|] == ns;
    if worst.None? {
      return state;
    }
    return worst.value;
  }

  // --------------------------------------------------------------- first choice

  /** Position of the first improving neighbour, or `|ns|` when there is none. */
  function FirstImproving<S>(p: Problem<S>, state: S, ns: seq<S>): (k: nat)
    ensures k <= |ns|
    ensures k < |ns| ==> Improves(p, ns[k], state)
    ensures forall j :: 0 <= j < k ==> !Improves(p, ns[j], state)
  {
    if ns == [] then 0
    else if Improves(p, ns[0], state) then 0
    else
      var k := FirstImproving(p, state, ns[1..]);
      assert forall j :: 1 <= j < k + 1 ==> ns[j] == ns[1..][j - 1];
      1 + k
  }

  /**
   * `FirstChoiceHillClimbing._climb_the_hill`: returns the first improving neighbour
   * (or the state) and how many neighbours the enumeration produced before it stopped.
   */
  method ClimbFirst<S>(p: Problem<S>, state: S, ns: seq<S>) returns (r: S, visited: nat)
    ensures var k := FirstImproving(p, state, ns);
      if k < |ns| then r == ns[k] && visited == k + 1 else r == state && visited == |ns|
  {
    for i := 0 to |ns|
      invariant FirstImproving(p, state, ns) == i + FirstImproving(p, state, ns[i..])
    {
      assert ns[i..][1..] == ns[i + 1..];
      if Improves(p, ns[i], state) {
        return ns[i], i + 1;
      }
    }
    return state, |ns|;
  }

  // -------------------------------------------------------------- random choice

  /** `RandomChoiceHillClimbing._climb_the_hill` once the one random neighbour is drawn. */
  function RandomChoiceOf<S>(p: Problem<S>, state: S, drawn: S): (r: S)
    ensures r == drawn || r == state
    ensures Improvement(p, r, state) >= 0
    ensures Improves(p, r, state) <==> Improves(p, drawn, state)
  {
    if Improves(p, drawn, state) then drawn else state
  }

  // ------------------------------------------------------------- all four rules

  /**
   * `_climb_the_hill` of each rule: the state returned and how many neighbours were
   * produced (and announced to subscribers) on the way.  The random rule gets the one
   * neighbour it draws as `ns`.
   */
  function Climb<S>(rule: ClimbRule, p: Problem<S>, state: S, ns: seq<S>): (S, nat)
    requires rule.RandomChoice? ==> |ns| == 1
  {
    match rule
    case BestChoice => (BestFold(p, state, ns), |ns|)
    case WorstChoice => (WorstChoiceOf(p, state, ns), |ns|)
    case FirstChoice =>
      var k := FirstImproving(p, state, ns);
      if k < |ns| then (ns[k], k + 1) else (state, |ns|)
    case RandomChoice => (RandomChoiceOf(p, state, ns[0]), 1)
  }

  /** No rule ever returns a state worse than its input, and none visits more than `ns`. */
  lemma ClimbNeverWorsens<S>(rule: ClimbRule, p: Problem<S>, state: S, ns: seq<S>)
    requires rule.RandomChoice? ==> |ns| == 1
    ensures Improvement(p, Climb(rule, p, state, ns).0, state) >= 0
    ensures Climb(rule, p, state, ns).1 <= |ns|
    ensures Climb(rule, p, state, ns).0 == state || Climb(rule, p, state, ns).0 in ns
  {
    match rule
    case BestChoice => BestFoldIsFirstMaximum(p, state, ns);
    case WorstChoice => WorstFoldIsFirstMinimum(p, state, ns);
    case FirstChoice =>
    case RandomChoice =>
  }
}
