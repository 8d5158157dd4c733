/**
 * The search engine (local_search/algorithms/subscribable_algorithm.py) together with
 * the hill-climbing template that completes it
 * (local_search/algorithms/hill_climbing/hill_climbing.py).
 *
 * A `HillClimbing` object carries the fields the engine keeps (best state, best
 * objective, steps since the last improvement, subscribers) and those hill climbing
 * adds (escape counter, escape weights); `rule` says which of the four subclasses it
 * is.  Subscribers are external code: they are identified by a number and every hook
 * call is recorded, in order, in `notifications`.  Random draws (the escape strategy,
 * the restart state, the perturbation moves, the random neighbour) are parameters.
 */
module HillClimbing {
  import opened Wrappers
  import opened Problem
  import opened ClimbRules

  /** `AlgorithmConfig` (local_search/algorithms/algorithm_config.py) and its subclass `HCConfig`. */
  datatype AlgorithmConfig =
    | AlgorithmConfig(localOptimumMovesThreshold: int, localOptimumEscapesMax: int)
    | HCConfig(localOptimumMovesThreshold: int, localOptimumEscapesMax: int,
               escapeRandomRestartProbability: real, escapePerturbationProbability: real,
               escapePerturbationSize: int)

  /** `DEFAULT_CONFIG` of algorithm_config.py: -1 escapes means "no limit". */
  const DefaultAlgorithmConfig := AlgorithmConfig(10, -1)

  /** `DEFAULT_CONFIG` of hill_climbing.py. */
  const DefaultHCConfig := HCConfig(10, -1, 0.5, 0.5, 50)

  /** `HCEscapeStrategy`: RandomRestart is 0 and Perturbation 1. */
  datatype EscapeStrategy = RandomRestart | Perturbation {
    function Index(): (i: nat)
      ensures i < 2
    {
      if RandomRestart? then 0 else 1
    }
  }

  /** What the random number generator decides during one `next_state` call. */
  datatype Draws<S> = Draws(
    strategy: EscapeStrategy,  // `random.choices` among the escape strategies
    restart: S,                // `problem.random_state()`
    perturbation: seq<nat>,    // for each perturbation step, the move `random_moves` yields first
    neighbour: nat             // the move the random-choice rule draws
  )

  /** The subscriber hooks. */
  datatype Event<S> =
    | OnNextState(state: S)
    | OnNextNeighbour(from: S, neighbour: S)
    | OnSolution(solution: S)

  type SubscriberId = nat

  /** One hook call: which subscriber was called with which event. */
  datatype Notification<S> = Notification(subscriber: SubscriberId, event: Event<S>)

  /** One event delivered to every subscriber, in registration order. */
  function Broadcast<S>(subscribers: seq<SubscriberId>, e: Event<S>): seq<Notification<S>> {
    seq(|subscribers|, i requires 0 <= i < |subscribers| => Notification(subscribers[i], e))
  }

  /** `on_next_neighbour` for each of `ns` in turn, each delivered to every subscriber. */
  function NeighbourEvents<S>(subscribers: seq<SubscriberId>, from: S, ns: seq<S>): seq<Notification<S>> {
    if ns == [] then []
    else (NeighbourEvents(subscribers, from, ns[..|ns| - 1]) +
          Broadcast(subscribers, OnNextNeighbour(from, ns[|ns| - 1])))
  }

  /** Entry `k * |subscribers| + j` of `log` announces neighbour k to subscriber j. */
  ghost predicate BlockAt<S>(log: seq<Notification<S>>, subscribers: seq<SubscriberId>, from: S, ns: seq<S>,
                             k: int, j: int) {
    0 <= k < |ns| && 0 <= j < |subscribers| &&
    0 <= k * |subscribers| + j < |log| &&
    log[k * |subscribers| + j] == Notification(subscribers[j], OnNextNeighbour(from, ns[k]))
  }

  /** `log` is the blocks of `ns`, one block per neighbour and one entry per subscriber. */
  ghost predicate NeighbourBlocks<S>(log: seq<Notification<S>>, subscribers: seq<SubscriberId>, from: S, ns: seq<S>) {
    |log| == |ns| * |subscribers| &&
    forall k, j :: 0 <= k < |ns| && 0 <= j < |subscribers| ==> BlockAt(log, subscribers, from, ns, k, j)
  }

  /**
   * Each neighbour is announced once to every subscriber: the log holds one block per
   * neighbour, in the order produced, and within a block one entry per subscriber, in
   * registration order.
   */
  lemma {:induction false} NeighbourEventsLength<S>(subscribers: seq<SubscriberId>, from: S, ns: seq<S>)
    ensures |NeighbourEvents(subscribers, from, ns)| == |ns| * |subscribers|
    ensures NeighbourBlocks(NeighbourEvents(subscribers, from, ns), subscribers, from, ns)
  {
    if ns != [] {
      var front := ns[..|ns| - 1];
      NeighbourEventsLength(subscribers, from, front);
      BlocksSnoc(NeighbourEvents(subscribers, from, front), subscribers, from, front, ns[|ns| - 1]);
      assert front + [ns[|ns| - 1]] == ns;
    }
  }

  /** Appending the broadcast of one more neighbour appends its block. */
  lemma BlocksSnoc<S>(log: seq<Notification<S>>, subscribers: seq<SubscriberId>, from: S, ns: seq<S>, n: S)
    requires NeighbourBlocks(log, subscribers, from, ns)
    ensures NeighbourBlocks(log + Broadcast(subscribers, OnNextNeighbour(from, n)), subscribers, from, ns + [n])
  {
    assert (|ns| + 1) * |subscribers| == |ns| * |subscribers| + |subscribers|;
    forall k, j | 0 <= k < |ns| + 1 && 0 <= j < |subscribers| {
      BlockEntry(log, subscribers, from, ns, n, k, j);
    }
  }

  /** One entry of the extended log: an old block's, or the new block's. */
  lemma BlockEntry<S>(log: seq<Notification<S>>, subscribers: seq<SubscriberId>, from: S, ns: seq<S>, n: S,
                      k: int, j: int)
    requires NeighbourBlocks(log, subscribers, from, ns)
    requires 0 <= k < |ns| + 1 && 0 <= j < |subscribers|
    ensures BlockAt(log + Broadcast(subscribers, OnNextNeighbour(from, n)), subscribers, from, ns + [n], k, j)
  {
    var m := |subscribers|;
    BlockIndex(k, j, |ns| + 1, m);
    assert (|ns| + 1) * m == |log| + m;
    if k < |ns| {
      assert BlockAt(log, subscribers, from, ns, k, j);
    } else {
      assert k * m == |log|;
    }
  }

  /** Entry j of block k lies in the first k + 1 blocks of size m. */
  lemma BlockIndex(k: int, j: int, n: int, m: int)
    requires 0 <= k < n && 0 <= j < m
    ensures 0 <= k * m + j < n * m
    ensures k < n - 1 ==> k * m + j < (n - 1) * m
  {
    MulMonotone(0, k, m);
    MulMonotone(k + 1, n, m);
    assert (k + 1) * m == k * m + m;
    if k < n - 1 {
      MulMonotone(k + 1, n - 1, m);
    }
  }

  /** Multiplying by a non-negative factor keeps the order. */
  lemma MulMonotone(a: int, b: int, m: int)
    requires 0 <= a <= b && 0 <= m
    ensures a * m <= b * m
  {
    assert b * m == a * m + (b - a) * m;
  }

  // ------------------------------------------------------------------ perturbation

  /** The draws lead through states that each have the drawn move available. */
  predicate ValidWalk<S>(p: Problem<S>, s: S, draws: seq<nat>)
    decreases |draws|, 1
  {
    draws == [] ||
    (ValidWalk(p, s, draws[..|draws| - 1]) &&
     draws[|draws| - 1] < |p.available(Walk(p, s, draws[..|draws| - 1]))|)
  }

  /** The state `_perturb` reaches: one drawn move per step, starting from `s`. */
  function Walk<S>(p: Problem<S>, s: S, draws: seq<nat>): S
    requires ValidWalk(p, s, draws)
    decreases |draws|, 2
  {
    if draws == [] then s
    else p.available(Walk(p, s, draws[..|draws| - 1]))[draws[|draws| - 1]]
  }

  /** A walk of `d1 + d2` moves is the walk of `d2` moves from where `d1` ends. */
  lemma {:induction false} WalkCompose<S>(p: Problem<S>, s: S, d1: seq<nat>, d2: seq<nat>)
    requires ValidWalk(p, s, d1) && ValidWalk(p, Walk(p, s, d1), d2)
    ensures ValidWalk(p, s, d1 + d2)
    ensures Walk(p, s, d1 + d2) == Walk(p, Walk(p, s, d1), d2)
  {
    if d2 == [] {
      assert d1 + d2 == d1;
    } else {
      var front := d2[..|d2| - 1];
      WalkCompose(p, s, d1, front);
      assert (d1 + d2)[..|d1 + d2| - 1] == d1 + front;
    }
  }

  /** Every step of a walk is one available move. */
  lemma WalkStep<S>(p: Problem<S>, s: S, draws: seq<nat>, i: nat)
    requires ValidWalk(p, s, draws) && i < |draws|
    ensures ValidWalk(p, s, draws[..i]) && ValidWalk(p, s, draws[..i + 1])
    ensures Walk(p, s, draws[..i + 1]) in p.available(Walk(p, s, draws[..i]))
  {
    var k := |draws|;
    var d := draws;
    while k > i + 1
      invariant i + 1 <= k <= |draws|
      invariant d == draws[..k] && ValidWalk(p, s, d)
    {
      assert d[..|d| - 1] == draws[..k - 1];
      d := d[..|d| - 1];
      k := k - 1;
    }
    assert d[..|d| - 1] == draws[..i];
  }

  function Max0(n: int): nat {
    if n < 0 then 0 else n
  }

  /** `self._local_optimum_escapes > self.config.local_optimum_escapes_max >= 0`. */
  predicate EscapesExhausted(config: AlgorithmConfig, escapes: int) {
    escapes > config.localOptimumEscapesMax >= 0
  }

  /** The draws are ones the escape can make: a strategy with positive weight, a valid perturbation. */
  predicate EscapeDrawsValid<S>(config: AlgorithmConfig, weights: seq<real>, p: Problem<S>, best: S, d: Draws<S>) {
    |weights| == 2 && weights[d.strategy.Index()] > 0.0 &&
    (d.strategy.Perturbation? ==>
      config.HCConfig? &&
      |d.perturbation| == Max0(config.escapePerturbationSize) &&
      ValidWalk(p, best, d.perturbation))
  }

  /** What `escape_local_optimum` returns once its counter has reached `escapes`. */
  function EscapeOutcome<S>(config: AlgorithmConfig, weights: seq<real>, escapes: int, p: Problem<S>, best: S, d: Draws<S>): (r: Option<S>)
    requires !EscapesExhausted(config, escapes) ==> EscapeDrawsValid(config, weights, p, best, d)
    ensures r.None? <==> escapes > config.localOptimumEscapesMax && config.localOptimumEscapesMax >= 0
    ensures r.Some? && d.strategy.RandomRestart? ==> r.value == d.restart
    ensures r.Some? && d.strategy.Perturbation? ==>
      config.HCConfig? && |d.perturbation| == Max0(config.escapePerturbationSize) &&
      r.value == Walk(p, best, d.perturbation)
  {
    if EscapesExhausted(config, escapes) then None
    else match d.strategy
      case RandomRestart => Some(d.restart)
      case Perturbation => Some(Walk(p, best, d.perturbation))
  }

  /** With the default limit of -1 escaping never gives up. */
  lemma UnlimitedEscapes<S>(config: AlgorithmConfig, weights: seq<real>, escapes: int, p: Problem<S>, best: S, d: Draws<S>)
    requires config.localOptimumEscapesMax == DefaultAlgorithmConfig.localOptimumEscapesMax
    requires EscapeDrawsValid(config, weights, p, best, d)
    ensures EscapeOutcome(config, weights, escapes, p, best, d).Some?
  {
  }

  /** A perturbation of size zero returns the best state itself. */
  lemma EmptyPerturbation<S>(p: Problem<S>, best: S)
    ensures ValidWalk(p, best, []) && Walk(p, best, []) == best
  {
  }

  /** The neighbours the rule looks at: all available ones, or the one the random rule draws. */
  function Neighbourhood<S>(rule: ClimbRule, p: Problem<S>, state: S, drawn: nat): (ns: seq<S>)
    requires rule.RandomChoice? ==> drawn < |p.available(state)|
    ensures rule.RandomChoice? ==> |ns| == 1
  {
    if rule.RandomChoice? then [p.available(state)[drawn]] else p.available(state)
  }

  class HillClimbing<S> {
    const rule: ClimbRule
    var config: AlgorithmConfig
    var escapeProbabilities: seq<real>
    var localOptimumEscapes: int
    var stepsFromLastStateUpdate: nat
    var bestObj: Option<int>
    var bestState: Option<S>
    var subscribers: seq<SubscriberId>
    var notifications: seq<Notification<S>>

    ghost predicate Valid()
      reads this
    {
      |escapeProbabilities| == 2
    }

    /**
     * `HillClimbing.__init__` followed by `SubscribableAlgorithm.__init__`.  Without a
     * configuration the weights come from hill climbing's default, but the engine's
     * constructor then stores the plain `AlgorithmConfig` default, which has no
     * perturbation size.
     */
    constructor (rule: ClimbRule, config: Option<AlgorithmConfig>)
      requires config.Some? ==> config.value.HCConfig?
      ensures Valid()
      ensures this.rule == rule
      ensures this.config == (if config.Some? then config.value else DefaultAlgorithmConfig)
      ensures var hc := if config.Some? then config.value else DefaultHCConfig;
        escapeProbabilities == [hc.escapeRandomRestartProbability, hc.escapePerturbationProbability]
      ensures localOptimumEscapes == 0 && stepsFromLastStateUpdate == 0
      ensures bestObj == None && bestState == None
      ensures subscribers == [] && notifications == []
    {
      var hc := if config.Some? then config.value else DefaultHCConfig;
      this.rule := rule;
      localOptimumEscapes := 0;
      var weights := [0.0, 0.0];
      weights := weights[RandomRestart.Index() := hc.escapeRandomRestartProbability];
      weights := weights[Perturbation.Index() := hc.escapePerturbationProbability];
      escapeProbabilities := weights;
      this.config := if config.Some? then config.value else DefaultAlgorithmConfig;
      stepsFromLastStateUpdate := 0;
      bestObj, bestState := None, None;
      subscribers := [];
      notifications := [];
    }

    /** `subscribe`: the new subscriber is notified after all earlier ones. */
    method Subscribe(subscriber: SubscriberId)
      modifies this`subscribers
      ensures subscribers == old(subscribers) + [subscriber]
    {
      subscribers := subscribers + [subscriber];
    }

    /** The loops of `_on_next_state`, `_on_next_neighbour` and `_on_solution`. */
    method Notify(e: Event<S>)
      modifies this`notifications
      ensures notifications == old(notifications) + Broadcast(subscribers, e)
    {
      for i := 0 to |subscribers|
        invariant notifications == old(notifications) + Broadcast(subscribers[..i], e)
      {
        notifications := notifications + [Notification(subscribers[i], e)];
      }
      assert subscribers[..|subscribers|] == subscribers;
    }

    /** `_get_neighbours`: every neighbour produced is announced before it is compared. */
    method AnnounceNeighbours(from: S, ns: seq<S>)
      modifies this`notifications
      ensures notifications == old(notifications) + NeighbourEvents(subscribers, from, ns)
    {
      for i := 0 to |ns|
        invariant notifications == old(notifications) + NeighbourEvents(subscribers, from, ns[..i])
      {
        assert ns[..i + 1][..i] == ns[..i];
        Notify(OnNextNeighbour(from, ns[i]));
      }
      assert ns[..|ns|] == ns;
    }

    predicate IsStuckInLocalOptimum()
      reads this`stepsFromLastStateUpdate, this`config
    {
      stepsFromLastStateUpdate >= config.localOptimumMovesThreshold
    }

    /** `_perturb`: `howMuch` random moves, starting from the best state. */
    method Perturb(p: Problem<S>, howMuch: int, draws: seq<nat>) returns (perturbed: S)
      requires bestState.Some?
      requires |draws| == Max0(howMuch) && ValidWalk(p, bestState.value, draws)
      ensures perturbed == Walk(p, bestState.value, draws)
    {
      perturbed := bestState.value;
      var i := 0;
      while i < howMuch
        invariant 0 <= i <= Max0(howMuch)
        invariant ValidWalk(p, bestState.value, draws[..i])
        invariant perturbed == Walk(p, bestState.value, draws[..i])
      {
        WalkStep(p, bestState.value, draws, i);
        assert draws[..i + 1][..i] == draws[..i];
        perturbed := p.available(perturbed)[draws[i]];
        i := i + 1;
      }
      assert draws[..i] == draws;
    }

    /** `escape_local_optimum`: count the escape, give up past the limit, else restart or perturb. */
    method EscapeLocalOptimum(p: Problem<S>, d: Draws<S>) returns (r: Option<S>)
      requires Valid() && bestState.Some?
      requires !EscapesExhausted(config, localOptimumEscapes + 1) ==>
        EscapeDrawsValid(config, escapeProbabilities, p, bestState.value, d)
      modifies this`localOptimumEscapes
      ensures localOptimumEscapes == old(localOptimumEscapes) + 1
      ensures r == EscapeOutcome(config, escapeProbabilities, localOptimumEscapes, p, bestState.value, d)
    {
      localOptimumEscapes := localOptimumEscapes + 1;
      if localOptimumEscapes > config.localOptimumEscapesMax >= 0 {
        return None;
      }
      match d.strategy
      case RandomRestart =>
        return Some(d.restart);
      case Perturbation =>
        var s := Perturb(p, config.escapePerturbationSize, d.perturbation);
        return Some(s);
    }

    /** `_find_next_state`, that is `_climb_the_hill` of this object's rule. */
    method FindNextState(p: Problem<S>, state: S, d: Draws<S>) returns (r: S)
      requires rule.RandomChoice? ==> d.neighbour < |p.available(state)|
      modifies this`notifications
      ensures var ns := Neighbourhood(rule, p, state, d.neighbour);
        r == Climb(rule, p, state, ns).0 &&
        notifications == old(notifications) + NeighbourEvents(subscribers, state, ns[..Climb(rule, p, state, ns).1])
    {
      var ns := Neighbourhood(rule, p, state, d.neighbour);
      var visited: nat;
      match rule {
        case BestChoice =>
          r := ClimbBest(p, state, ns);
          visited := |ns|;
        case WorstChoice =>
          r := ClimbWorst(p, state, ns);
          visited := |ns|;
        case FirstChoice =>
          r, visited := ClimbFirst(p, state, ns);
        case RandomChoice =>
          r := RandomChoiceOf(p, state, ns[0]);
          visited := 1;
      }
      AnnounceNeighbours(state, ns[..visited]);
    }

    /** `_update_algorithm_state`: a strictly better state becomes the best one and resets the count. */
    method UpdateAlgorithmState(p: Problem<S>, newState: S)
      modifies this`bestState, this`bestObj, this`stepsFromLastStateUpdate
      ensures var best := if old(bestState).None? then newState else old(bestState).value;
        if Improves(p, newState, best) then
          bestState == Some(newState) && bestObj == Some(ObjectiveFor(p, newState)) &&
          stepsFromLastStateUpdate == 0
        else
          bestState == Some(best) && bestObj == old(bestObj) &&
          stepsFromLastStateUpdate == old(stepsFromLastStateUpdate) + 1
    {
      if bestState.None? {
        bestState := Some(newState);
      }
      if Improvement(p, newState, bestState.value) > 0 {
        bestObj, bestState := Some(ObjectiveFor(p, newState)), Some(newState);
        stepsFromLastStateUpdate := 0;
      } else {
        stepsFromLastStateUpdate := stepsFromLastStateUpdate + 1;
      }
    }

    /**
     * `next_state`: one step of the search.  The first call records the state as the
     * best one; a stuck search escapes instead of climbing; a produced state updates the
     * bookkeeping and is announced, while no state announces the solution.
     */
    method NextState(p: Problem<S>, state: S, d: Draws<S>) returns (next: Option<S>)
      requires Valid()
      requires !IsStuckInLocalOptimum() && rule.RandomChoice? ==> d.neighbour < |p.available(state)|
      requires IsStuckInLocalOptimum() && !EscapesExhausted(config, localOptimumEscapes + 1) ==>
        EscapeDrawsValid(config, escapeProbabilities,
                         p, if bestState.None? then state else bestState.value, d)
      modifies this
      ensures Valid()
      ensures config == old(config) && escapeProbabilities == old(escapeProbabilities)
      ensures subscribers == old(subscribers)
      ensures var best := if old(bestState).None? then state else old(bestState).value;
        var stuck := old(IsStuckInLocalOptimum());
        && localOptimumEscapes == old(localOptimumEscapes) + (if stuck then 1 else 0)
        && (stuck ==>
              next == EscapeOutcome(config, escapeProbabilities, localOptimumEscapes, p, best, d) &&
              notifications == old(notifications)
                + (if old(bestState).None? then Broadcast(subscribers, OnNextState(state)) else [])
                + (if next.Some? then Broadcast(subscribers, OnNextState(next.value))
                   else Broadcast(subscribers, OnSolution(state))))
        && (!stuck ==>
              var ns := Neighbourhood(rule, p, state, d.neighbour);
              next == Some(Climb(rule, p, state, ns).0) &&
              notifications == old(notifications)
                + (if old(bestState).None? then Broadcast(subscribers, OnNextState(state)) else [])
                + NeighbourEvents(subscribers, state, ns[..Climb(rule, p, state, ns).1])
                + Broadcast(subscribers, OnNextState(next.value)))
        && (next.None? ==>
              bestState == Some(best) && bestObj == old(bestObj) &&
              stepsFromLastStateUpdate == old(stepsFromLastStateUpdate))
        && (next.Some? && Improves(p, next.value, best) ==>
              bestState == next && bestObj == Some(ObjectiveFor(p, next.value)) &&
              stepsFromLastStateUpdate == 0)
        && (next.Some? && !Improves(p, next.value, best) ==>
              bestState == Some(best) && bestObj == old(bestObj) &&
              stepsFromLastStateUpdate == old(stepsFromLastStateUpdate) + 1)
    {
      RecordFirst(state);
      next := Move(p, state, d);
      Conclude(p, state, next);
    }

    /** The start of `next_state`: the first state seen becomes the best and is announced. */
    method RecordFirst(state: S)
      modifies this`bestState, this`notifications
      ensures bestState == Some(if old(bestState).None? then state else old(bestState).value)
      ensures notifications == old(notifications)
        + (if old(bestState).None? then Broadcast(subscribers, OnNextState(state)) else [])
    {
      if bestState.None? {
        bestState := Some(state);
        Notify(OnNextState(state));
      }
    }

    /** The middle of `next_state`: a stuck search escapes, any other climbs. */
    method Move(p: Problem<S>, state: S, d: Draws<S>) returns (next: Option<S>)
      requires Valid() && bestState.Some?
      requires !IsStuckInLocalOptimum() && rule.RandomChoice? ==> d.neighbour < |p.available(state)|
      requires IsStuckInLocalOptimum() && !EscapesExhausted(config, localOptimumEscapes + 1) ==>
        EscapeDrawsValid(config, escapeProbabilities, p, bestState.value, d)
      modifies this`localOptimumEscapes, this`notifications
      ensures IsStuckInLocalOptimum() ==>
        localOptimumEscapes == old(localOptimumEscapes) + 1 &&
        next == EscapeOutcome(config, escapeProbabilities, localOptimumEscapes, p, bestState.value, d) &&
        notifications == old(notifications)
      ensures !IsStuckInLocalOptimum() ==>
        var ns := Neighbourhood(rule, p, state, d.neighbour);
        localOptimumEscapes == old(localOptimumEscapes) &&
        next == Some(Climb(rule, p, state, ns).0) &&
        notifications == old(notifications) + NeighbourEvents(subscribers, state, ns[..Climb(rule, p, state, ns).1])
    {
      if IsStuckInLocalOptimum() {
        next := EscapeLocalOptimum(p, d);
      } else {
        var s := FindNextState(p, state, d);
        next := Some(s);
      }
    }

    /**
     * The end of `next_state`: a produced state updates the bookkeeping and is announced;
     * no state announces `state` as the solution.
     */
    method Conclude(p: Problem<S>, state: S, next: Option<S>)
      requires bestState.Some?
      modifies this`bestState, this`bestObj, this`stepsFromLastStateUpdate, this`notifications
      ensures notifications == old(notifications) +
        (if next.Some? then Broadcast(subscribers, OnNextState(next.value))
         else Broadcast(subscribers, OnSolution(state)))
      ensures next.None? ==>
        bestState == old(bestState) && bestObj == old(bestObj) &&
        stepsFromLastStateUpdate == old(stepsFromLastStateUpdate)
      ensures next.Some? && Improves(p, next.value, old(bestState).value) ==>
        bestState == next && bestObj == Some(ObjectiveFor(p, next.value)) &&
        stepsFromLastStateUpdate == 0
      ensures next.Some? && !Improves(p, next.value, old(bestState).value) ==>
        bestState == old(bestState) && bestObj == old(bestObj) &&
        stepsFromLastStateUpdate == old(stepsFromLastStateUpdate) + 1
    {
      if next.Some? {
        UpdateAlgorithmState(p, next.value);
        Notify(OnNextState(next.value));
      } else {
        Notify(OnSolution(state));
      }
    }
  }
}
