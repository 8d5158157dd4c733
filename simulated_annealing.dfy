/**
 * The schedule of simulated annealing (local_search/algorithms/simulated_annealing.py):
 * the temperature, its cooling and clamping, the counter of optima found and the
 * heat and restart resets.  The acceptance step is not part of this model.
 */
module SimulatedAnnealing {
  import opened Wrappers

  /** `OnOptimumStrategy`. */
  datatype OnOptimumStrategy = Heat | Restart | Terminate

  /** `SimulatedAnnealingConfig`, the engine's two fields followed by its own. */
  datatype SAConfig = SAConfig(
    localOptimumMovesThreshold: int,
    localOptimumEscapesMax: int,
    initialTemperature: int,
    coolingStep: real,
    minTemperature: real,
    onOptimumStrategy: OnOptimumStrategy,
    onOptimumStrategyRepeats: int
  )

  /** `DEFAULT_CONFIG` of simulated_annealing.py. */
  const DefaultSAConfig := SAConfig(10, -1, 1000, 0.001, 0.00000001, Terminate, 5)

  function MaxReal(a: real, b: real): real {
    if a >= b then a else b
  }

  /** The temperature after one `_update_temperature`. */
  function Cool(t: real, coolingStep: real, minTemperature: real): real {
    MaxReal(t - coolingStep * t, minTemperature)
  }

  /** One update never goes below the floor and, from above the floor, never heats. */
  lemma CoolBounds(t: real, coolingStep: real, minTemperature: real)
    ensures Cool(t, coolingStep, minTemperature) >= minTemperature
    ensures coolingStep >= 0.0 && t >= minTemperature && t >= 0.0 ==>
      Cool(t, coolingStep, minTemperature) <= t
  {
    if coolingStep >= 0.0 && t >= 0.0 {
      MulNonNegative(coolingStep, t);
    }
  }

  /** The temperature after `k` updates. */
  function CoolTimes(t: real, coolingStep: real, minTemperature: real, k: nat): real {
    if k == 0 then t
    else Cool(CoolTimes(t, coolingStep, minTemperature, k - 1), coolingStep, minTemperature)
  }

  lemma MulNonNegative(x: real, y: real)
    requires x >= 0.0 && y >= 0.0
    ensures x * y >= 0.0
  {
  }

  /** The temperature never rises under cooling and never leaves [T_min, T0]. */
  lemma {:induction false} CoolTimesMonotone(t0: real, c: real, tmin: real, k: nat)
    requires c >= 0.0 && 0.0 <= tmin <= t0
    ensures tmin <= CoolTimes(t0, c, tmin, k + 1) <= CoolTimes(t0, c, tmin, k) <= t0
  {
    if k > 0 {
      CoolTimesMonotone(t0, c, tmin, k - 1);
    }
    var t := CoolTimes(t0, c, tmin, k);
    assert t >= tmin && t <= t0 by {
      if k > 0 {
        CoolBounds(CoolTimes(t0, c, tmin, k - 1), c, tmin);
      }
    }
    CoolBounds(t, c, tmin);
  }

  class SimulatedAnnealing<S> {
    var config: SAConfig
    var temperature: real
    var optimumStatesFound: int
    var stepsFromLastStateUpdate: int

    /** `__init__`: the temperature starts at the configured initial temperature. */
    constructor (config: Option<SAConfig>)
      ensures this.config == (if config.Some? then config.value else DefaultSAConfig)
      ensures temperature == this.config.initialTemperature as real
      ensures optimumStatesFound == 0 && stepsFromLastStateUpdate == 0
    {
      this.config := if config.Some? then config.value else DefaultSAConfig;
      temperature := (if config.Some? then config.value else DefaultSAConfig).initialTemperature as real;
      optimumStatesFound := 0;
      stepsFromLastStateUpdate := 0;
    }

    /** `_update_temperature`. */
    method UpdateTemperature()
      modifies this`temperature
      ensures temperature == Cool(old(temperature), config.coolingStep, config.minTemperature)
    {
      temperature := MaxReal(temperature - config.coolingStep * temperature, config.minTemperature);
    }

    /** `_heat`: back to the initial temperature, the step count reset, the state kept. */
    method HeatUp(fromState: S) returns (r: S)
      modifies this`temperature, this`stepsFromLastStateUpdate
      ensures r == fromState
      ensures temperature == config.initialTemperature as real && stepsFromLastStateUpdate == 0
    {
      temperature := config.initialTemperature as real;
      stepsFromLastStateUpdate := 0;
      r := fromState;
    }

    /** `_restart`: the step count reset; `shuffled` is what `from_state.shuffle()` returns. */
    method RestartFrom(fromState: S, shuffled: S) returns (r: S)
      modifies this`stepsFromLastStateUpdate
      ensures r == shuffled && stepsFromLastStateUpdate == 0
    {
      stepsFromLastStateUpdate := 0;
      r := shuffled;
    }

    /**
     * `_on_optimum_state`: count the optimum; past the configured repeats, or with the
     * Terminate strategy, give up; otherwise heat or restart.
     */
    method OnOptimumState(state: S, shuffled: S) returns (r: Option<S>)
      modifies this`optimumStatesFound, this`temperature, this`stepsFromLastStateUpdate
      ensures optimumStatesFound == old(optimumStatesFound) + 1
      ensures r.None? <==>
        optimumStatesFound > config.onOptimumStrategyRepeats || config.onOptimumStrategy.Terminate?
      ensures r.Some? && config.onOptimumStrategy.Heat? ==>
        r.value == state && temperature == config.initialTemperature as real &&
        stepsFromLastStateUpdate == 0
      ensures r.Some? && config.onOptimumStrategy.Restart? ==>
        r.value == shuffled && temperature == old(temperature) && stepsFromLastStateUpdate == 0
      ensures r.None? ==>
        temperature == old(temperature) && stepsFromLastStateUpdate == old(stepsFromLastStateUpdate)
    {
      optimumStatesFound := optimumStatesFound + 1;
      if optimumStatesFound > config.onOptimumStrategyRepeats {
        return None;
      }
      match config.onOptimumStrategy
      case Terminate =>
        r := None;
      case Restart =>
        var s := RestartFrom(state, shuffled);
        r := Some(s);
      case Heat =>
        var s := HeatUp(state);
        r := Some(s);
    }
  }
}
