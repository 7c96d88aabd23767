/** The driver (`genetic_algorithm`): one population evolves for at most max_generations
    generations, and the run stops early once the best score has stayed the same for
    max_epochs generations. */
module Search {
  import opened Genes
  import opened Params
  import Objective
  import Fitness
  import Ranking
  import Crossover
  import Mutation
  import Init

  /** The state of `epochs_unchanged`. Python creates the variable on its first assignment, so
      before the first generation it is unassigned, and reading it then raises
      UnboundLocalError (the run ends with the exception). */
  datatype Counter = Unassigned | Epochs(n: nat) | Unbound

  /** The update at the end of a generation: one more when the best score equals
      `previous_score`, back to 1 when it differs. */
  function Advance(previous: nat, counter: Counter, best: nat): Counter {
    match counter
    case Unbound => Unbound
    case Unassigned => if previous == best then Unbound else Epochs(1)
    case Epochs(n) => if previous == best then Epochs(n + 1) else Epochs(1)
  }

  /** `previous_score` after the best scores of the generations so far: 0 before the first. */
  function Previous(costs: seq<nat>): nat {
    if costs == [] then 0 else costs[|costs| - 1]
  }

  /** `epochs_unchanged` after the best scores of the generations so far. */
  function CounterAfter(costs: seq<nat>): Counter {
    if costs == [] then Unassigned
    else
      var m := |costs| - 1;
      Advance(Previous(costs[..m]), CounterAfter(costs[..m]), costs[m])
  }

  /** How many of the last best scores equal the latest one: the length of the final run. */
  function TrailingRun(costs: seq<nat>): (r: nat)
    requires costs != []
    ensures 1 <= r <= |costs|
    ensures forall t :: |costs| - r <= t < |costs| ==> costs[t] == costs[|costs| - 1]
    ensures r < |costs| ==> costs[|costs| - r - 1] != costs[|costs| - 1]
  {
    var m := |costs| - 1;
    if m == 0 then 1
    else if costs[m - 1] == costs[m] then TrailingRun(costs[..m]) + 1
    else 1
  }

  /** The counter against an independent description: the run ends with the exception exactly
      when the first generation's best score is 0 (the initial `previous_score`); otherwise the
      counter is the length of the final run of equal best scores. */
  lemma {:induction false} CounterTracksRun(costs: seq<nat>)
    requires costs != []
    ensures CounterAfter(costs) == Unbound <==> costs[0] == 0
    ensures costs[0] != 0 ==> CounterAfter(costs) == Epochs(TrailingRun(costs))
  {
    var m := |costs| - 1;
    if m > 0 {
      var prefix := costs[..m];
      assert prefix[0] == costs[0] && prefix[..m - 1] == costs[..m - 1];
      CounterTracksRun(prefix);
    }
  }

  /** The run stops: either the counter cannot be read or it has reached max_epochs. */
  predicate Halts(counter: Counter, maxEpochs: nat) {
    counter == Unbound || (counter.Epochs? && counter.n >= maxEpochs)
  }

  /** The run went through every generation of costs without stopping: after none of them
      did the counter fail to read or reach max_epochs. */
  predicate RanThrough(costs: seq<nat>, maxEpochs: nat) {
    costs == [] || (RanThrough(costs[..|costs| - 1], maxEpochs) && !Halts(CounterAfter(costs), maxEpochs))
  }

  /** Every generation before the last one left the run going: only the last report can be
      the one after which the run stopped. */
  ghost predicate RanBeforeLast(history: seq<Progress>, maxEpochs: nat) {
    |history| > 0 ==> RanThrough(Costs(history[..|history| - 1]), maxEpochs)
  }

  /** What the loop prints for one generation: the generation number, the best score, the
      best chromosome's centers and how many genes it has set. */
  datatype Progress = Progress(generation: nat, cost: nat, bestCenters: seq<nat>, centerCount: nat)

  /** How the run ended: all generations done, the `break` on max_epochs, or the
      UnboundLocalError on the counter. */
  datatype Outcome = Exhausted | Converged | CounterUnbound

  /** The best scores the run reported, generation by generation. */
  function Costs(history: seq<Progress>): (costs: seq<nat>)
    ensures |costs| == |history| && forall g :: 0 <= g < |history| ==> costs[g] == history[g].cost
  {
    seq(|history|, g requires 0 <= g < |history| => history[g].cost)
  }

  /** If the counter cannot be read, that happened in the first generation, whose best score
      was 0. */
  lemma CrashOnlyAtFirstGeneration(costs: seq<nat>, maxEpochs: nat)
    requires costs != [] && CounterAfter(costs) == Unbound
    requires RanThrough(costs[..|costs| - 1], maxEpochs)
    ensures |costs| == 1 && costs[0] == 0
  {
    CounterTracksRun(costs);
    var m := |costs| - 1;
    if m > 0 {
      assert costs[..m][0] == costs[0];
      CounterTracksRun(costs[..m]);
      assert false;
    }
  }

  /** A `break` on max_epochs means the best score has been the same for the last max_epochs
      generations. */
  lemma ConvergedMeansPlateau(costs: seq<nat>, maxEpochs: nat)
    requires costs != [] && CounterAfter(costs).Epochs? && CounterAfter(costs).n >= maxEpochs
    ensures TrailingRun(costs) >= maxEpochs
    ensures forall t :: |costs| - maxEpochs <= t < |costs| ==> costs[t] == costs[|costs| - 1]
  {
    CounterTracksRun(costs);
  }

  /** The random choices one generation consumes: the repair draws of every chromosome, one
      pair of cut points per breeding pair, one sample per re-seeded slot, and the
      `int(mutation_rate * population)` mutation events. */
  datatype GenerationDraws = GenerationDraws(
    repair: seq<seq<nat>>,
    points: seq<(nat, nat)>,
    reseeds: seq<seq<nat>>,
    events: seq<(nat, nat)>)

  /** The draws have the shapes and ranges the random calls of one generation produce. */
  predicate DrawsFit(cfg: Config, d: GenerationDraws)
    requires cfg.rateDen > 0
  {
    var half := HalfPop(cfg.population);
    |d.repair| == cfg.population
    && (forall p :: 0 <= p < cfg.population ==> |d.repair[p]| >= cfg.totalNodes)
    && |d.points| == half / 2
    && (forall q :: 0 <= q < |d.points| ==> d.points[q].0 < cfg.totalNodes && d.points[q].1 < cfg.totalNodes)
    && |d.reseeds| == ReseedCount(half)
    && (forall r :: 0 <= r < |d.reseeds| ==> IsSample(d.reseeds[r], cfg.totalNodes, cfg.k))
    && |d.events| == MutationCount(cfg)
    && Mutation.EventsFit(d.events, cfg.population, cfg.totalNodes)
  }

  /** The population is well formed: one chromosome per slot, each over every node, all 0/1. */
  predicate WellFormed(cfg: Config, pop: seq<seq<int>>) {
    |pop| == cfg.population && forall q :: 0 <= q < |pop| ==> |pop[q]| == cfg.totalNodes && Binary(pop[q])
  }

  /** The fitness call of a generation: every chromosome is repaired in place and scored, and
      the population stays well formed. */
  method ScorePopulation(pop: array<seq<int>>, cfg: Config, dist: seq<seq<nat>>, d: GenerationDraws)
    returns (score: seq<nat>)
    requires ValidConfig(cfg) && Objective.IsDistanceMatrix(dist) && |dist| == cfg.totalNodes
    requires WellFormed(cfg, pop[..]) && DrawsFit(cfg, d)
    modifies pop
    ensures WellFormed(cfg, pop[..]) && |score| == cfg.population
    ensures forall p :: 0 <= p < cfg.population ==>
      pop[p] == Fitness.RepairedRow(old(pop[p]), cfg.k, d.repair[p])
      && score[p] == Fitness.Evaluated(dist, cfg.k, old(pop[p]), d.repair[p])
  {
    score := Fitness.Fitness(pop, dist, cfg.k, d.repair);
    forall p | 0 <= p < pop.Length
      ensures Binary(pop[p])
    {
      Fitness.RepairKeepsBinary(old(pop[p]), cfg.k, d.repair[p]);
    }
  }

  /** The first half of a generation: score every chromosome (fitness repairs them in place),
      sort by score and rearrange, and report the best chromosome. */
  method RankGeneration(pop: array<seq<int>>, cfg: Config, dist: seq<seq<nat>>, g: nat, d: GenerationDraws)
    returns (ranked: array<seq<int>>, entry: Progress, ghost b: nat)
    requires ValidConfig(cfg) && Objective.IsDistanceMatrix(dist) && |dist| == cfg.totalNodes
    requires WellFormed(cfg, pop[..]) && DrawsFit(cfg, d)
    modifies pop
    ensures fresh(ranked) && WellFormed(cfg, ranked[..])
    ensures ranked[..] == RankedPop(cfg, dist, old(pop[..]), d)
    ensures Reported(cfg, entry, g) && b < cfg.population && Best(cfg, dist, old(pop[..]), d, b, entry)
    ensures Lowest(cfg, dist, old(pop[..]), d, entry.cost)
  {
    ghost var orig := pop[..];
    var score := ScorePopulation(pop, cfg, dist, d);
    ghost var repaired := pop[..];
    ranked, entry, b := RankAndReport(pop, score, cfg, g);
    FitnessResults(cfg, dist, orig, d, repaired, score);
    RankedReport(cfg, dist, orig, d, repaired, score, g, b, entry);
  }

  /** What fitness leaves, slot by slot, is the repaired population and its scores. */
  lemma FitnessResults(cfg: Config, dist: seq<seq<nat>>, orig: seq<seq<int>>, d: GenerationDraws,
                       repaired: seq<seq<int>>, score: seq<nat>)
    requires ValidConfig(cfg) && Objective.IsDistanceMatrix(dist) && |dist| == cfg.totalNodes
    requires WellFormed(cfg, orig) && DrawsFit(cfg, d)
    requires |repaired| == |score| == cfg.population
    requires forall p :: 0 <= p < cfg.population ==>
      repaired[p] == Fitness.RepairedRow(orig[p], cfg.k, d.repair[p])
      && score[p] == Fitness.Evaluated(dist, cfg.k, orig[p], d.repair[p])
    ensures repaired == RepairedPop(cfg, orig, d) && score == Scores(cfg, dist, orig, d)
  {
  }

  /** The report taken from rank 0 of the scored population is about the best chromosome of
      the population before fitness. */
  lemma RankedReport(cfg: Config, dist: seq<seq<nat>>, orig: seq<seq<int>>, d: GenerationDraws,
                     repaired: seq<seq<int>>, score: seq<nat>, g: nat, b: nat, entry: Progress)
    requires ValidConfig(cfg) && Objective.IsDistanceMatrix(dist) && |dist| == cfg.totalNodes
    requires WellFormed(cfg, orig) && DrawsFit(cfg, d)
    requires |repaired| == |score| == cfg.population
    requires forall p :: 0 <= p < cfg.population ==>
      repaired[p] == Fitness.RepairedRow(orig[p], cfg.k, d.repair[p])
      && score[p] == Fitness.Evaluated(dist, cfg.k, orig[p], d.repair[p])
    requires b < cfg.population && entry == Progress(g, score[b], OnesOf(repaired[b]), CountOnes(repaired[b]))
    requires forall p :: 0 <= p < |score| ==> score[b] <= score[p]
    requires forall p :: 0 <= p < b ==> score[b] < score[p]
    ensures Reported(cfg, entry, g) && Best(cfg, dist, orig, d, b, entry) && Lowest(cfg, dist, orig, d, entry.cost)
  {
    Fitness.RepairRestoresK(orig[b], OnesOf(orig[b]), cfg.k, d.repair[b]);
    Objective.ScoreIsWorstNode(dist, cfg.k, Fitness.RepairedCenters(orig[b], cfg.k, d.repair[b]));
  }

  /** The sort and the report of a generation: the population is rearranged by score, and the
      report is about the chromosome the stable sort puts first, the first one with the least
      score, which becomes rank 0. */
  method RankAndReport(pop: array<seq<int>>, score: seq<nat>, cfg: Config, g: nat)
    returns (ranked: array<seq<int>>, entry: Progress, ghost b: nat)
    requires WellFormed(cfg, pop[..]) && |score| == pop.Length > 0
    ensures fresh(ranked) && WellFormed(cfg, ranked[..])
    ensures ranked[..] == Ranking.Reorder(pop[..], Ranking.StableOrder(score))
    ensures b < pop.Length && entry == Progress(g, score[b], OnesOf(pop[b]), CountOnes(pop[b]))
    ensures forall p :: 0 <= p < |score| ==> score[b] <= score[p]
    ensures b == Ranking.StableOrder(score)[0] && ranked[0] == pop[b]
    ensures forall p :: 0 <= p < b ==> score[b] < score[p]
  {
    var order := Ranking.StableOrder(score);
    Ranking.StableOrderSorts(score);
    ranked := Ranking.Rearrange(pop, order);
    var top := order[0];
    b := top;
    var best := CollectCenters(ranked[0]);
    entry := Progress(g, score[top], best, CountOnes(ranked[0]));
    forall p | 0 <= p < b
      ensures score[b] < score[p]
    {
      assert p in order;
      var t :| 0 <= t < |order| && order[t] == p;
    }
  }

  /** Chromosome b of the population before fitness is the one a generation reports: its
      score is the reported cost, the reported centers are the ones of its repaired form, and
      every chromosome before it scores more (ties go to the lower index). */
  ghost predicate Best(cfg: Config, dist: seq<seq<nat>>, pop: seq<seq<int>>, d: GenerationDraws, b: nat, entry: Progress)
    requires ValidConfig(cfg) && Objective.IsDistanceMatrix(dist) && |dist| == cfg.totalNodes
    requires WellFormed(cfg, pop) && DrawsFit(cfg, d) && b < cfg.population
  {
    entry.cost == Fitness.Evaluated(dist, cfg.k, pop[b], d.repair[b])
    && entry.bestCenters == OnesOf(Fitness.RepairedRow(pop[b], cfg.k, d.repair[b]))
    && forall p :: 0 <= p < b ==> entry.cost < Fitness.Evaluated(dist, cfg.k, pop[p], d.repair[p])
  }

  /** The report of a generation is about its best chromosome: one that scores the reported
      cost, which no chromosome of the generation beats. */
  ghost predicate Lowest(cfg: Config, dist: seq<seq<nat>>, pop: seq<seq<int>>, d: GenerationDraws, cost: nat)
    requires ValidConfig(cfg) && Objective.IsDistanceMatrix(dist) && |dist| == cfg.totalNodes
    requires WellFormed(cfg, pop) && DrawsFit(cfg, d)
  {
    forall p :: 0 <= p < cfg.population ==> cost <= Fitness.Evaluated(dist, cfg.k, pop[p], d.repair[p])
  }

  /** The population after fitness: every chromosome repaired with its own draws. */
  ghost function RepairedPop(cfg: Config, pop: seq<seq<int>>, d: GenerationDraws): seq<seq<int>>
    requires ValidConfig(cfg) && WellFormed(cfg, pop) && DrawsFit(cfg, d)
  {
    seq(cfg.population, p requires 0 <= p < cfg.population => Fitness.RepairedRow(pop[p], cfg.k, d.repair[p]))
  }

  /** The scores fitness returns, one per chromosome. */
  ghost function Scores(cfg: Config, dist: seq<seq<nat>>, pop: seq<seq<int>>, d: GenerationDraws): seq<nat>
    requires ValidConfig(cfg) && Objective.IsDistanceMatrix(dist) && |dist| == cfg.totalNodes
    requires WellFormed(cfg, pop) && DrawsFit(cfg, d)
  {
    seq(cfg.population, p requires 0 <= p < cfg.population => Fitness.Evaluated(dist, cfg.k, pop[p], d.repair[p]))
  }

  /** The ranked population of a generation: the repaired chromosomes in the stable order of
      their scores. */
  ghost function RankedPop(cfg: Config, dist: seq<seq<nat>>, pop: seq<seq<int>>, d: GenerationDraws): (r: seq<seq<int>>)
    requires ValidConfig(cfg) && Objective.IsDistanceMatrix(dist) && |dist| == cfg.totalNodes
    requires WellFormed(cfg, pop) && DrawsFit(cfg, d)
    ensures |r| == cfg.population && forall q :: 0 <= q < |r| ==> |r[q]| == cfg.totalNodes
  {
    var scores := Scores(cfg, dist, pop, d);
    Ranking.StableOrderSorts(scores);
    Ranking.Reorder(RepairedPop(cfg, pop, d), Ranking.StableOrder(scores))
  }

  /** The population the next generation starts from: crossover, then mutation, of the
      ranked population. */
  ghost function NextPop(cfg: Config, dist: seq<seq<nat>>, pop: seq<seq<int>>, d: GenerationDraws): seq<seq<int>>
    requires ValidConfig(cfg) && Objective.IsDistanceMatrix(dist) && |dist| == cfg.totalNodes
    requires WellFormed(cfg, pop) && DrawsFit(cfg, d)
  {
    var ranked := RankedPop(cfg, dist, pop, d);
    var crossed := Crossover.Crossed(ranked, cfg.totalNodes, cfg.k, d.points, d.reseeds);
    Mutation.Mutated(crossed, cfg.totalNodes, d.events)
  }

  /** With no mutation events, the chromosome ranked first comes through crossover unchanged
      and starts the next generation in slot 0. */
  lemma UnmutatedKeepsBest(cfg: Config, dist: seq<seq<nat>>, pop: seq<seq<int>>, d: GenerationDraws)
    requires ValidConfig(cfg) && Objective.IsDistanceMatrix(dist) && |dist| == cfg.totalNodes
    requires WellFormed(cfg, pop) && DrawsFit(cfg, d) && d.events == []
    ensures NextPop(cfg, dist, pop, d)[0] == RankedPop(cfg, dist, pop, d)[0]
  {
    var ranked := RankedPop(cfg, dist, pop, d);
    Crossover.CrossedKeepsElite(ranked, cfg.totalNodes, cfg.k, d.points, d.reseeds);
  }

  /** Rank 0 of the ranked population is the first chromosome with the lowest score, as
      repaired by fitness. */
  lemma RankedFirst(cfg: Config, dist: seq<seq<nat>>, pop: seq<seq<int>>, d: GenerationDraws)
    requires ValidConfig(cfg) && Objective.IsDistanceMatrix(dist) && |dist| == cfg.totalNodes
    requires WellFormed(cfg, pop) && DrawsFit(cfg, d)
    ensures var first := Ranking.StableOrder(Scores(cfg, dist, pop, d))[0];
      first < cfg.population
      && RankedPop(cfg, dist, pop, d)[0] == Fitness.RepairedRow(pop[first], cfg.k, d.repair[first])
      && forall p :: 0 <= p < cfg.population ==>
           Fitness.Evaluated(dist, cfg.k, pop[first], d.repair[first]) <= Fitness.Evaluated(dist, cfg.k, pop[p], d.repair[p])
  {
    var scores := Scores(cfg, dist, pop, d);
    Ranking.StableOrderSorts(scores);
    var order := Ranking.StableOrder(scores);
    var first := order[0];
    assert RankedPop(cfg, dist, pop, d) == Ranking.Reorder(RepairedPop(cfg, pop, d), order);
    assert RepairedPop(cfg, pop, d)[first] == Fitness.RepairedRow(pop[first], cfg.k, d.repair[first]);
    assert scores[first] == Fitness.Evaluated(dist, cfg.k, pop[first], d.repair[first]);
    forall p | 0 <= p < cfg.population
      ensures Fitness.Evaluated(dist, cfg.k, pop[first], d.repair[first]) <= Fitness.Evaluated(dist, cfg.k, pop[p], d.repair[p])
    {
      assert scores[first] <= scores[p];
    }
  }

  /** With no mutation events, the next generation's best score is at most this one's: its
      slot 0 holds this generation's best chromosome, already repaired to k centers, which
      repair leaves alone and which scores the same again. */
  lemma UnmutatedBestNeverRises(cfg: Config, dist: seq<seq<nat>>, pop: seq<seq<int>>, d: GenerationDraws,
                                d2: GenerationDraws, b: nat, entry: Progress, b2: nat, entry2: Progress)
    requires ValidConfig(cfg) && Objective.IsDistanceMatrix(dist) && |dist| == cfg.totalNodes
    requires DrawsFit(cfg, d) && DrawsFit(cfg, d2) && d.events == []
    requires ReportOf(cfg, dist, d, pop, b, entry)
    requires ReportOf(cfg, dist, d2, NextPop(cfg, dist, pop, d), b2, entry2)
    ensures entry2.cost <= entry.cost
  {
    var first := Ranking.StableOrder(Scores(cfg, dist, pop, d))[0];
    RankedFirst(cfg, dist, pop, d);
    UnmutatedKeepsBest(cfg, dist, pop, d);
    var next := NextPop(cfg, dist, pop, d);
    assert next[0] == Fitness.RepairedRow(pop[first], cfg.k, d.repair[first]);
    Fitness.RescoreRepaired(dist, cfg.k, pop[first], d.repair[first], d2.repair[0]);
    assert entry2.cost <= Fitness.Evaluated(dist, cfg.k, next[0], d2.repair[0]);
    assert Fitness.Evaluated(dist, cfg.k, pop[first], d.repair[first]) <= entry.cost;
  }

  /** The second half of a generation: crossover, then mutation, on the ranked population. */
  method Reproduce(ranked: array<seq<int>>, cfg: Config, d: GenerationDraws)
    requires ValidConfig(cfg) && WellFormed(cfg, ranked[..]) && DrawsFit(cfg, d)
    modifies ranked
    ensures ranked[..] == Mutation.Mutated(
      Crossover.Crossed(old(ranked[..]), cfg.totalNodes, cfg.k, d.points, d.reseeds), cfg.totalNodes, d.events)
    ensures WellFormed(cfg, ranked[..])
  {
    var n, k := cfg.totalNodes, cfg.k;
    assert Crossover.CrossoverInputs(ranked[..], n, k, d.points, d.reseeds);
    Crossover.Crossover(ranked, n, k, d.points, d.reseeds);
    Crossover.CrossedBinary(old(ranked[..]), n, k, d.points, d.reseeds);
    ghost var crossed := ranked[..];
    Mutation.Mutation(ranked, n, d.events);
    Mutation.MutationKeepsBinary(crossed, n, d.events);
  }

  /** One pass of the loop of `genetic_algorithm` up to the counter update. */
  method Generation(pop: array<seq<int>>, cfg: Config, dist: seq<seq<nat>>, g: nat, d: GenerationDraws)
    returns (next: array<seq<int>>, entry: Progress, ghost b: nat)
    requires ValidConfig(cfg) && Objective.IsDistanceMatrix(dist) && |dist| == cfg.totalNodes
    requires WellFormed(cfg, pop[..]) && DrawsFit(cfg, d)
    modifies pop
    ensures fresh(next) && WellFormed(cfg, next[..]) && next[..] == NextPop(cfg, dist, old(pop[..]), d)
    ensures Reported(cfg, entry, g) && b < cfg.population && Best(cfg, dist, old(pop[..]), d, b, entry)
    ensures Lowest(cfg, dist, old(pop[..]), d, entry.cost)
  {
    next, entry, b := RankGeneration(pop, cfg, dist, g, d);
    Reproduce(next, cfg, d);
  }

  /** Reporting one more generation appends its cost. */
  lemma CostsAppend(history: seq<Progress>, entry: Progress)
    ensures Costs(history + [entry]) == Costs(history) + [entry.cost]
  {
  }

  /** One more generation advances the counter from the previous score and the old counter. */
  lemma CounterStep(costs: seq<nat>, cost: nat)
    ensures CounterAfter(costs + [cost]) == Advance(Previous(costs), CounterAfter(costs), cost)
    ensures Previous(costs + [cost]) == cost
  {
    assert (costs + [cost])[..|costs|] == costs;
  }

  /** One pass of the loop of `genetic_algorithm`: a generation, then the update of
      `epochs_unchanged` against `previous_score`. */
  method LoopPass(pop: array<seq<int>>, cfg: Config, dist: seq<seq<nat>>, g: nat, d: GenerationDraws,
                  previous: nat, epochs: Counter)
    returns (next: array<seq<int>>, entry: Progress, counter: Counter, ghost b: nat)
    requires ValidConfig(cfg) && Objective.IsDistanceMatrix(dist) && |dist| == cfg.totalNodes
    requires WellFormed(cfg, pop[..]) && DrawsFit(cfg, d) && !epochs.Unbound?
    modifies pop
    ensures fresh(next) && WellFormed(cfg, next[..]) && Reported(cfg, entry, g)
    ensures next[..] == NextPop(cfg, dist, old(pop[..]), d)
    ensures ReportOf(cfg, dist, d, old(pop[..]), b, entry)
    ensures counter == Advance(previous, epochs, entry.cost)
  {
    next, entry, b := Generation(pop, cfg, dist, g, d);
    counter := CountEpochs(previous, epochs, entry.cost);
  }

  /** The update of `epochs_unchanged` at the end of a generation; Unbound stands for the
      UnboundLocalError raised when the counter is incremented before its first assignment. */
  method CountEpochs(previous: nat, epochs: Counter, best: nat) returns (counter: Counter)
    requires !epochs.Unbound?
    ensures counter == Advance(previous, epochs, best)
  {
    if previous == best {
      if epochs.Unassigned? {
        return Unbound;
      }
      counter := Epochs(epochs.n + 1);
    } else {
      counter := Epochs(1);
    }
  }

  /** The state the loop of `genetic_algorithm` keeps about the generations reported so far:
      each report is well formed, none of them stopped the run, and `epochs_unchanged` and
      `previous_score` hold what the reported costs determine. */
  ghost predicate Trace(cfg: Config, history: seq<Progress>, previous: nat, epochs: Counter) {
    (forall h :: 0 <= h < |history| ==> Reported(cfg, history[h], h))
    && RanThrough(Costs(history), cfg.maxEpochs)
    && epochs == CounterAfter(Costs(history))
    && previous == Previous(Costs(history))
  }

  /** While the loop runs, the counter can still be read. */
  lemma TraceLive(cfg: Config, history: seq<Progress>, previous: nat, epochs: Counter)
    requires Trace(cfg, history, previous, epochs)
    ensures !epochs.Unbound?
  {
  }

  /** A new report advances the counter as the reported costs say, and the trace extends to
      it unless the new counter stops the run. */
  lemma TraceExtends(cfg: Config, history: seq<Progress>, previous: nat, epochs: Counter, entry: Progress)
    requires Trace(cfg, history, previous, epochs) && Reported(cfg, entry, |history|)
    ensures !epochs.Unbound?
    ensures Costs(history + [entry])[..|history|] == Costs(history)
    ensures var extended := history + [entry];
      (forall g :: 0 <= g < |extended| ==> Reported(cfg, extended[g], g))
      && RanThrough(Costs(extended[..|extended| - 1]), cfg.maxEpochs)
    ensures Advance(previous, epochs, entry.cost) == CounterAfter(Costs(history + [entry]))
    ensures !Halts(Advance(previous, epochs, entry.cost), cfg.maxEpochs) ==>
      Trace(cfg, history + [entry], entry.cost, Advance(previous, epochs, entry.cost))
  {
    CostsAppend(history, entry);
    CounterStep(Costs(history), entry.cost);
    var costs := Costs(history + [entry]);
    assert costs[..|history|] == Costs(history);
    assert (history + [entry])[..|history|] == history;
  }

  /** A report is about the population a generation started from (before fitness repaired
      it): the reported cost and centers are those of its chromosome b once repaired, and no
      chromosome of that generation scores lower. */
  ghost predicate ReportOf(cfg: Config, dist: seq<seq<nat>>, d: GenerationDraws, pop: seq<seq<int>>, b: nat, entry: Progress)
    requires ValidConfig(cfg) && Objective.IsDistanceMatrix(dist) && |dist| == cfg.totalNodes
    requires DrawsFit(cfg, d)
  {
    WellFormed(cfg, pop) && b < cfg.population && Best(cfg, dist, pop, d, b, entry) && Lowest(cfg, dist, pop, d, entry.cost)
  }

  /** Every report of the run is about the population its generation started from. */
  ghost predicate Witnessed(cfg: Config, dist: seq<seq<nat>>, draws: seq<GenerationDraws>,
                            pops: seq<seq<seq<int>>>, bests: seq<nat>, history: seq<Progress>)
    requires ValidConfig(cfg) && Objective.IsDistanceMatrix(dist) && |dist| == cfg.totalNodes
    requires forall g :: 0 <= g < |draws| ==> DrawsFit(cfg, draws[g])
  {
    |pops| == |bests| == |history| <= |draws|
    && forall g {:trigger ReportOf(cfg, dist, draws[g], pops[g], bests[g], history[g])} ::
         0 <= g < |history| ==> ReportOf(cfg, dist, draws[g], pops[g], bests[g], history[g])
  }

  /** A generation's report, witnessed by the population it started from, extends the
      witnessed run. */
  lemma WitnessedExtends(cfg: Config, dist: seq<seq<nat>>, draws: seq<GenerationDraws>,
                         pops: seq<seq<seq<int>>>, bests: seq<nat>, history: seq<Progress>,
                         pop: seq<seq<int>>, b: nat, entry: Progress)
    requires ValidConfig(cfg) && Objective.IsDistanceMatrix(dist) && |dist| == cfg.totalNodes
    requires forall g :: 0 <= g < |draws| ==> DrawsFit(cfg, draws[g])
    requires Witnessed(cfg, dist, draws, pops, bests, history) && |history| < |draws|
    requires ReportOf(cfg, dist, draws[|history|], pop, b, entry)
    ensures Witnessed(cfg, dist, draws, pops + [pop], bests + [b], history + [entry])
  {
  }

  /** Each generation starts from the population the previous one left: fitness, the stable
      sort, crossover and mutation applied to it with that generation's draws. The last
      population may be the one the final generation leaves, so there is at most one more
      population than draws. */
  ghost predicate Chained(cfg: Config, dist: seq<seq<nat>>, draws: seq<GenerationDraws>, pops: seq<seq<seq<int>>>)
    requires ValidConfig(cfg) && Objective.IsDistanceMatrix(dist) && |dist| == cfg.totalNodes
    requires forall g :: 0 <= g < |draws| ==> DrawsFit(cfg, draws[g])
    decreases |pops|
  {
    |pops| <= |draws| + 1
    && (|pops| > 1 ==>
          Chained(cfg, dist, draws, pops[..|pops| - 1])
          && WellFormed(cfg, pops[|pops| - 2])
          && Leaves(cfg, dist, pops[|pops| - 2], draws[|pops| - 2], pops[|pops| - 1]))
  }

  /** Population `next` is the one a generation with draws d leaves from `prev`: it equals
      `NextPop(cfg, dist, prev, d)`. The equation sits under a quantifier triggered by
      `NextPop` itself, so a proof sees the whole generation only where it asks about it. */
  ghost predicate Leaves(cfg: Config, dist: seq<seq<nat>>, prev: seq<seq<int>>, d: GenerationDraws, next: seq<seq<int>>)
    requires ValidConfig(cfg) && Objective.IsDistanceMatrix(dist) && |dist| == cfg.totalNodes
    requires WellFormed(cfg, prev) && DrawsFit(cfg, d)
  {
    forall e {:trigger NextPop(cfg, dist, prev, e)} :: e == d ==> next == NextPop(cfg, dist, prev, e)
  }

  /** The population a generation leaves extends the chain of populations. */
  lemma ChainExtends(cfg: Config, dist: seq<seq<nat>>, draws: seq<GenerationDraws>,
                     pops: seq<seq<seq<int>>>, pop: seq<seq<int>>)
    requires ValidConfig(cfg) && Objective.IsDistanceMatrix(dist) && |dist| == cfg.totalNodes
    requires forall g :: 0 <= g < |draws| ==> DrawsFit(cfg, draws[g])
    requires Chained(cfg, dist, draws, pops) && |pops| <= |draws|
    requires |pops| > 0 ==>
      WellFormed(cfg, pops[|pops| - 1]) && Leaves(cfg, dist, pops[|pops| - 1], draws[|pops| - 1], pop)
    ensures Chained(cfg, dist, draws, pops + [pop])
  {
    var extended := pops + [pop];
    assert extended[..|pops|] == pops;
    if |pops| > 0 {
      assert extended[|pops| - 1] == pops[|pops| - 1] && extended[|pops|] == pop;
    }
  }

  /** Every prefix of a chain is a chain: dropping the population the last generation left. */
  lemma ChainPrefix(cfg: Config, dist: seq<seq<nat>>, draws: seq<GenerationDraws>,
                    pops: seq<seq<seq<int>>>, pop: seq<seq<int>>)
    requires ValidConfig(cfg) && Objective.IsDistanceMatrix(dist) && |dist| == cfg.totalNodes
    requires forall g :: 0 <= g < |draws| ==> DrawsFit(cfg, draws[g])
    requires Chained(cfg, dist, draws, pops + [pop])
    ensures Chained(cfg, dist, draws, pops)
  {
    assert (pops + [pop])[..|pops|] == pops;
  }

  /** The chain read generation by generation: population g + 1 is the one generation g
      leaves. */
  lemma {:induction false} ChainedAt(cfg: Config, dist: seq<seq<nat>>, draws: seq<GenerationDraws>,
                                     pops: seq<seq<seq<int>>>, g: nat)
    requires ValidConfig(cfg) && Objective.IsDistanceMatrix(dist) && |dist| == cfg.totalNodes
    requires forall g :: 0 <= g < |draws| ==> DrawsFit(cfg, draws[g])
    requires Chained(cfg, dist, draws, pops) && g + 1 < |pops|
    ensures WellFormed(cfg, pops[g]) && pops[g + 1] == NextPop(cfg, dist, pops[g], draws[g])
    decreases |pops|
  {
    if g + 2 < |pops| {
      var prefix := pops[..|pops| - 1];
      ChainedAt(cfg, dist, draws, prefix, g);
      assert prefix[g] == pops[g] && prefix[g + 1] == pops[g + 1];
    }
  }

  /** What the end of the run says about its reports: at most max_generations of them, each
      well formed, none but the last stopping the run, and the outcome the one the reported
      costs determine. */
  ghost predicate Ended(cfg: Config, outcome: Outcome, history: seq<Progress>) {
    |history| <= cfg.maxGenerations
    && (forall g :: 0 <= g < |history| ==> Reported(cfg, history[g], g))
    && RanBeforeLast(history, cfg.maxEpochs)
    && (outcome == CounterUnbound <==> |history| > 0 && CounterAfter(Costs(history)) == Unbound)
    && (outcome == Converged <==>
         |history| > 0 && CounterAfter(Costs(history)).Epochs? && CounterAfter(Costs(history)).n >= cfg.maxEpochs)
    && (outcome == Exhausted ==> |history| == cfg.maxGenerations)
  }

  /** The run that stops after its last report ends with the exception or the `break`,
      whichever the counter calls for. */
  lemma EndsHalted(cfg: Config, history: seq<Progress>, outcome: Outcome)
    requires 0 < |history| <= cfg.maxGenerations
    requires forall g :: 0 <= g < |history| ==> Reported(cfg, history[g], g)
    requires RanBeforeLast(history, cfg.maxEpochs) && Halts(CounterAfter(Costs(history)), cfg.maxEpochs)
    requires outcome == if CounterAfter(Costs(history)) == Unbound then CounterUnbound else Converged
    ensures Ended(cfg, outcome, history)
  {
  }

  /** The run that went through all max_generations without stopping ends exhausted. */
  lemma EndsExhausted(cfg: Config, history: seq<Progress>, previous: nat, epochs: Counter)
    requires Trace(cfg, history, previous, epochs) && RanBeforeLast(history, cfg.maxEpochs)
    requires |history| == cfg.maxGenerations
    ensures Ended(cfg, Exhausted, history)
  {
  }

  /** One pass of the loop together with the run's record: the new report, the population
      the generation started from and its reported chromosome extend the witnessed run, and
      the counter is the one the reported costs determine. */
  method RecordedPass(pop: array<seq<int>>, cfg: Config, dist: seq<seq<nat>>, draws: seq<GenerationDraws>, g: nat,
                      previous: nat, epochs: Counter,
                      ghost history: seq<Progress>, ghost pops: seq<seq<seq<int>>>, ghost bests: seq<nat>)
    returns (next: array<seq<int>>, entry: Progress, counter: Counter, ghost b: nat)
    requires ValidConfig(cfg) && Objective.IsDistanceMatrix(dist) && |dist| == cfg.totalNodes
    requires forall g :: 0 <= g < |draws| ==> DrawsFit(cfg, draws[g])
    requires WellFormed(cfg, pop[..]) && |history| == g < |draws|
    requires Trace(cfg, history, previous, epochs) && Witnessed(cfg, dist, draws, pops, bests, history)
    requires Chained(cfg, dist, draws, pops + [pop[..]])
    modifies pop
    ensures fresh(next) && WellFormed(cfg, next[..])
    ensures Chained(cfg, dist, draws, pops + [old(pop[..])] + [next[..]])
    ensures Witnessed(cfg, dist, draws, pops + [old(pop[..])], bests + [b], history + [entry])
    ensures counter == Advance(previous, epochs, entry.cost)
    ensures var extended := history + [entry];
      counter == CounterAfter(Costs(extended))
      && (forall g :: 0 <= g < |extended| ==> Reported(cfg, extended[g], g))
      && (!Halts(counter, cfg.maxEpochs) ==> Trace(cfg, extended, entry.cost, counter))
  {
    ghost var before := pop[..];
    TraceLive(cfg, history, previous, epochs);
    next, entry, counter, b := LoopPass(pop, cfg, dist, g, draws[g], previous, epochs);
    TraceExtends(cfg, history, previous, epochs, entry);
    WitnessedExtends(cfg, dist, draws, pops, bests, history, before, b, entry);
    assert Leaves(cfg, dist, before, draws[g], next[..]);
    ChainExtends(cfg, dist, draws, pops + [before], next[..]);
  }

  /** A run without mutation never reports a higher best score than the generation before:
      each population after the first is the one before it, crossed over. */
  lemma UnmutatedRunNeverRises(cfg: Config, dist: seq<seq<nat>>, draws: seq<GenerationDraws>,
                               pops: seq<seq<seq<int>>>, bests: seq<nat>, history: seq<Progress>)
    requires ValidConfig(cfg) && Objective.IsDistanceMatrix(dist) && |dist| == cfg.totalNodes
    requires forall g :: 0 <= g < |draws| ==> DrawsFit(cfg, draws[g])
    requires MutationCount(cfg) == 0
    requires Witnessed(cfg, dist, draws, pops, bests, history)
    requires forall g :: 0 <= g < |pops| - 1 ==>
      WellFormed(cfg, pops[g]) && pops[g + 1] == NextPop(cfg, dist, pops[g], draws[g])
    ensures forall g :: 0 <= g < |history| - 1 ==> history[g + 1].cost <= history[g].cost
  {
    forall g | 0 <= g < |history| - 1
      ensures history[g + 1].cost <= history[g].cost
    {
      assert ReportOf(cfg, dist, draws[g], pops[g], bests[g], history[g]);
      assert ReportOf(cfg, dist, draws[g + 1], pops[g + 1], bests[g + 1], history[g + 1]);
      UnmutatedBestNeverRises(cfg, dist, pops[g], draws[g], draws[g + 1], bests[g], history[g], bests[g + 1], history[g + 1]);
    }
  }

  /** `genetic_algorithm()`: initialise, then run generations until max_generations, the
      `break` on max_epochs, or the error on the unassigned counter. The ghost results are the
      population each generation started from and the index, in it, of the chromosome that
      generation reported. */
  method GeneticAlgorithm(cfg: Config, dist: seq<seq<nat>>, samples: seq<seq<nat>>, draws: seq<GenerationDraws>)
    returns (outcome: Outcome, history: seq<Progress>, ghost pops: seq<seq<seq<int>>>, ghost bests: seq<nat>)
    requires ValidConfig(cfg) && Objective.IsDistanceMatrix(dist) && |dist| == cfg.totalNodes
    requires |samples| == cfg.population
    requires forall i :: 0 <= i < cfg.population ==> IsSample(samples[i], cfg.totalNodes, cfg.k)
    requires |draws| == cfg.maxGenerations && forall g :: 0 <= g < |draws| ==> DrawsFit(cfg, draws[g])
    ensures |history| <= cfg.maxGenerations
    ensures Witnessed(cfg, dist, draws, pops, bests, history)
    ensures |history| > 0 ==>
      |pops[0]| == cfg.population &&
      forall i :: 0 <= i < cfg.population ==> pops[0][i] == SetOnes(Zeros(cfg.totalNodes), samples[i])
    ensures forall g :: 0 <= g < |pops| - 1 ==>
      WellFormed(cfg, pops[g]) && pops[g + 1] == NextPop(cfg, dist, pops[g], draws[g])
    ensures forall g :: 0 <= g < |history| ==> Reported(cfg, history[g], g)
    ensures MutationCount(cfg) == 0 ==> forall g :: 0 <= g < |history| - 1 ==> history[g + 1].cost <= history[g].cost
    ensures RanBeforeLast(history, cfg.maxEpochs)
    ensures outcome == CounterUnbound <==> |history| > 0 && CounterAfter(Costs(history)) == Unbound
    ensures outcome == Converged <==>
      |history| > 0 && CounterAfter(Costs(history)).Epochs? && CounterAfter(Costs(history)).n >= cfg.maxEpochs
    ensures outcome == Exhausted ==> |history| == cfg.maxGenerations
  {
    var pop := Init.InitializeChromosomes(cfg.totalNodes, cfg.population, cfg.k, samples);
    outcome, history, pops, bests := Evolve(pop, cfg, dist, draws);
    forall g | 0 <= g < |pops| - 1
      ensures WellFormed(cfg, pops[g]) && pops[g + 1] == NextPop(cfg, dist, pops[g], draws[g])
    {
      ChainedAt(cfg, dist, draws, pops, g);
    }
    if MutationCount(cfg) == 0 {
      UnmutatedRunNeverRises(cfg, dist, draws, pops, bests, history);
    }
  }

  /** The state the loop of `genetic_algorithm` keeps between generations, together with the
      run's record: the reports so far, the population each generation started from and the
      one the loop holds now (`first` while no generation has run), chained generation by
      generation. */
  ghost predicate Running(cfg: Config, dist: seq<seq<nat>>, draws: seq<GenerationDraws>, first: seq<seq<int>>,
                          history: seq<Progress>, pops: seq<seq<seq<int>>>, bests: seq<nat>,
                          previous: nat, epochs: Counter, current: seq<seq<int>>)
    requires ValidConfig(cfg) && Objective.IsDistanceMatrix(dist) && |dist| == cfg.totalNodes
    requires forall g :: 0 <= g < |draws| ==> DrawsFit(cfg, draws[g])
  {
    WellFormed(cfg, current)
    && Trace(cfg, history, previous, epochs) && RanBeforeLast(history, cfg.maxEpochs)
    && Witnessed(cfg, dist, draws, pops, bests, history)
    && (|pops| > 0 ==> pops[0] == first) && (|pops| == 0 ==> current == first)
    && Chained(cfg, dist, draws, pops + [current])
  }

  /** What the run leaves behind: its reports, each about the population its generation
      started from, the first of them `first`, chained generation by generation, and an
      outcome as the reported costs determine. */
  ghost predicate Finished(cfg: Config, dist: seq<seq<nat>>, draws: seq<GenerationDraws>, first: seq<seq<int>>,
                           outcome: Outcome, history: seq<Progress>, pops: seq<seq<seq<int>>>, bests: seq<nat>)
    requires ValidConfig(cfg) && Objective.IsDistanceMatrix(dist) && |dist| == cfg.totalNodes
    requires forall g :: 0 <= g < |draws| ==> DrawsFit(cfg, draws[g])
  {
    Witnessed(cfg, dist, draws, pops, bests, history)
    && (|pops| > 0 ==> pops[0] == first)
    && Chained(cfg, dist, draws, pops)
    && Ended(cfg, outcome, history)
  }

  /** One generation of the loop on the running state: either the state runs on to the next
      generation, or the run stops after this report with the error or the `break`. */
  method Pass(pop: array<seq<int>>, cfg: Config, dist: seq<seq<nat>>, draws: seq<GenerationDraws>, g: nat,
              ghost first: seq<seq<int>>, previous: nat, epochs: Counter,
              ghost history: seq<Progress>, ghost pops: seq<seq<seq<int>>>, ghost bests: seq<nat>)
    returns (next: array<seq<int>>, entry: Progress, counter: Counter,
             ghost pops': seq<seq<seq<int>>>, ghost bests': seq<nat>)
    requires ValidConfig(cfg) && Objective.IsDistanceMatrix(dist) && |dist| == cfg.totalNodes
    requires |draws| == cfg.maxGenerations && forall g :: 0 <= g < |draws| ==> DrawsFit(cfg, draws[g])
    requires |history| == g < |draws|
    requires Running(cfg, dist, draws, first, history, pops, bests, previous, epochs, pop[..])
    modifies pop
    ensures fresh(next) && !counter.Unassigned?
    ensures !Halts(counter, cfg.maxEpochs) ==>
      Running(cfg, dist, draws, first, history + [entry], pops', bests', entry.cost, counter, next[..])
    ensures Halts(counter, cfg.maxEpochs) ==>
      Finished(cfg, dist, draws, first, if counter == Unbound then CounterUnbound else Converged,
               history + [entry], pops', bests')
  {
    ghost var before := pop[..];
    ghost var b;
    next, entry, counter, b := RecordedPass(pop, cfg, dist, draws, g, previous, epochs, history, pops, bests);
    pops', bests' := pops + [before], bests + [b];
    ghost var extended := history + [entry];
    assert extended[..|extended| - 1] == history;
    if Halts(counter, cfg.maxEpochs) {
      EndsHalted(cfg, extended, if counter == Unbound then CounterUnbound else Converged);
      ChainPrefix(cfg, dist, draws, pops', next[..]);
    }
  }

  /** A run that went through every generation without stopping has finished exhausted. */
  lemma RunsOut(cfg: Config, dist: seq<seq<nat>>, draws: seq<GenerationDraws>, first: seq<seq<int>>,
                history: seq<Progress>, pops: seq<seq<seq<int>>>, bests: seq<nat>,
                previous: nat, epochs: Counter, current: seq<seq<int>>)
    requires ValidConfig(cfg) && Objective.IsDistanceMatrix(dist) && |dist| == cfg.totalNodes
    requires forall g :: 0 <= g < |draws| ==> DrawsFit(cfg, draws[g])
    requires Running(cfg, dist, draws, first, history, pops, bests, previous, epochs, current)
    requires |history| == cfg.maxGenerations
    ensures Finished(cfg, dist, draws, first, Exhausted, history, pops, bests)
  {
    EndsExhausted(cfg, history, previous, epochs);
    ChainPrefix(cfg, dist, draws, pops, current);
  }

  /** The loop of `genetic_algorithm` from a given first population, with `previous_score`
      at 0 and `epochs_unchanged` not yet assigned. */
  method Evolve(start: array<seq<int>>, cfg: Config, dist: seq<seq<nat>>, draws: seq<GenerationDraws>)
    returns (outcome: Outcome, history: seq<Progress>, ghost pops: seq<seq<seq<int>>>, ghost bests: seq<nat>)
    requires ValidConfig(cfg) && Objective.IsDistanceMatrix(dist) && |dist| == cfg.totalNodes
    requires WellFormed(cfg, start[..])
    requires |draws| == cfg.maxGenerations && forall g :: 0 <= g < |draws| ==> DrawsFit(cfg, draws[g])
    modifies start
    ensures Finished(cfg, dist, draws, old(start[..]), outcome, history, pops, bests)
  {
    var pop := start;
    var previous: nat := 0;
    var epochs := Unassigned;
    history := [];
    pops, bests := [], [];
    var g := 0;
    while g < cfg.maxGenerations
      invariant g <= cfg.maxGenerations && |history| == g
      invariant pop == start || fresh(pop)
      invariant Running(cfg, dist, draws, old(start[..]), history, pops, bests, previous, epochs, pop[..])
    {
      var next, entry, counter;
      next, entry, counter, pops, bests := Pass(pop, cfg, dist, draws, g, old(start[..]), previous, epochs, history, pops, bests);
      history := history + [entry];
      pop := next;
      if counter == Unbound {
        outcome := CounterUnbound;
        return;
      }
      if counter.n >= cfg.maxEpochs {
        outcome := Converged;
        return;
      }
      previous, epochs := entry.cost, counter;
      g := g + 1;
    }
    outcome := Exhausted;
    RunsOut(cfg, dist, draws, old(start[..]), history, pops, bests, previous, epochs, pop[..]);
  }


  /** What the run reports for generation g: its number, k centers listed in increasing order
      and counted as k, and a cost below the sentinel. */
  predicate Reported(cfg: Config, entry: Progress, g: nat) {
    entry.generation == g && entry.centerCount == cfg.k && entry.cost < Objective.Sentinel
    && |entry.bestCenters| == cfg.k && Increasing(entry.bestCenters)
    && forall t :: 0 <= t < cfg.k ==> entry.bestCenters[t] < cfg.totalNodes
  }
}
