/**
  The colony's parameters (ACO_CONFIG).
 */
module Settings {

  /**
    `alpha` and `beta` are the exponents of the selection weight
    `pow(pheromone, alpha) * pow(1 / distance, beta)`; the model takes that
    weight as a given function, so they are carried here only for the record.
   */
  datatype Config = Config(
    ants: nat,
    iterations: nat,
    alpha: real,
    beta: real,
    evaporation: real,
    pheromoneDeposit: real)

  /** The values the program runs with. */
  const AcoConfig := Config(100, 200, 0.8, 5.0, 0.7, 500.0)

  /** Evaporation keeps a positive share of every trail and deposits are
      never negative: the conditions under which the field stays positive. */
  predicate KeepsTrails(cfg: Config)
  {
    0.0 <= cfg.evaporation < 1.0 && cfg.pheromoneDeposit >= 0.0
  }

  /** The program's own settings (EVAPORATION 0.7, PHEROMONE_DEPOSIT 500)
      keep every trail positive. */
  lemma ConfigKeepsTrails()
    ensures KeepsTrails(AcoConfig)
  {
  }
}

/** Sign facts about products of reals. */
module Reals {

  lemma ProductNonNegative(a: real, b: real)
    requires a >= 0.0 && b >= 0.0
    ensures a * b >= 0.0
  {
  }

  lemma ProductPositive(a: real, b: real)
    requires a > 0.0 && b > 0.0
    ensures a * b > 0.0
  {
  }

  lemma QuotientNonNegative(a: real, b: real)
    requires a >= 0.0 && b > 0.0
    ensures a / b >= 0.0
  {
  }
}
