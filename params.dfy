/** The hyperparameters of the search, which the Python file fixes as module-level constants. */
module Params {

  /** The mutation rate is a fraction rateNum / rateDen (0.2 in the file is 1 / 5). */
  datatype Config = Config(
    totalNodes: nat,
    population: nat,
    k: nat,
    rateNum: nat,
    rateDen: nat,
    maxGenerations: nat,
    maxEpochs: nat)

  /** The values the file runs with: 146 nodes, 140 chromosomes, 13 centers, rate 0.2,
      at most 200 generations, stop after 70 generations without change. */
  const Source: Config := Config(146, 140, 13, 1, 5, 200, 70)

  /** `int(population / 2)`. */
  function HalfPop(population: nat): nat {
    population / 2
  }

  /** How many slots crossover re-seeds: ranks 8 .. half_pop - 1. */
  function ReseedCount(half: nat): nat {
    if half > 8 then half - 8 else 0
  }

  /** `int(mutation_rate * population)`: the product truncated toward zero. */
  function MutationCount(cfg: Config): (r: nat)
    requires cfg.rateDen > 0
    ensures r * cfg.rateDen <= cfg.rateNum * cfg.population < (r + 1) * cfg.rateDen
  {
    cfg.rateNum * cfg.population / cfg.rateDen
  }

  /** What the search needs of its parameters: a non-empty graph, no more centers than nodes
      (`random.sample` refuses more), a non-empty population whose half is even (otherwise the
      last crossover pair writes a slot it still has to read), and a positive rate denominator. */
  predicate ValidConfig(cfg: Config) {
    1 <= cfg.totalNodes
    && cfg.k <= cfg.totalNodes
    && 1 <= cfg.population
    && HalfPop(cfg.population) % 2 == 0
    && cfg.rateDen > 0
  }

  /** The file's own values meet these conditions: half_pop is 70 and 28 mutations happen
      per generation. */
  lemma SourceConfig()
    ensures ValidConfig(Source)
    ensures HalfPop(Source.population) == 70 && ReseedCount(70) == 62
    ensures MutationCount(Source) == 28
  {
  }
}
