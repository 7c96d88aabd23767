# K-center genetic search, modelled in Dafny

`genetic.py` searches for k centers in a weighted complete graph of N nodes so that the
largest distance from any node to its closest center is as small as possible. A candidate
solution is a chromosome: a list of N genes, gene j being 1 when node j is a center. The
program keeps a population of chromosomes and evolves it generation by generation:

- **initialisation** (`initialize_chromosomes`): every chromosome starts with exactly k
  ones at a random sample of positions;
- **fitness** (`fitness`): every chromosome is first repaired in place to hold exactly k
  centers, by removing random centers or adding random non-centers. It is then scored by
  the **objective** (`k_centers_objective_value`), the largest nearest-center distance;
- **ranking**: the population is sorted by score, with a stable sort;
- **crossover** (`crossover`): the best half breeds in pairs, and each pair's two
  children overwrite two slots of the worst half. Ranks 0 to 7 survive, and the other
  parents are re-seeded with fresh random chromosomes;
- **mutation** (`mutation`): `int(mutation_rate * population)` mutation events each flip one
  random gene;
- **the driver** (`genetic_algorithm`): runs at most `max_generations` generations and
  prints the best chromosome of each. It stops once the best score has stayed the same
  for `max_epochs` generations.

The modules follow these steps:

| module | file | flavour |
|---|---|---|
| `Params` | `params.dfy` | the hyperparameters as a `Config` value; `Source` holds the file's values |
| `Genes` | `genes.dfy` | chromosome encoding: counting ones, center lists, seeding |
| `Objective` | `objective.dfy` | the objective as functions, and the double loop as a method over an array |
| `Fitness` | `fitness.dfy` | the repair loop and the scoring loop as methods that update the population array in place |
| `Init` | `init.dfy` | the population builder |
| `Crossover` | `crossover.dfy` | the pairing loop and the re-seeding loop on the population array |
| `Mutation` | `mutation.dfy` | the flip loop on the population array |
| `Ranking` | `ranking.dfy` | the stable sort as a pure function, and the rearrangement as a method |
| `Search` | `search.dfy` | one generation and the driver loop with its stopping counter |

The population is an `array<seq<int>>`: the outer Python list is the array, and each
chromosome is a value. Python copies chromosomes by slice assignment, so two slots never
share a list, and a gene write `chromosomes[i][j] = v` becomes `pop[i] := pop[i][j := v]`.
The graph is an N x N distance matrix `dist`, and its nodes are 0 .. N-1.

Every random choice is an input:
- `samples` for the initial positions;
- `GenerationDraws`: the repair draws, the cut points, the re-seed samples and the
  mutation events of one generation.

A repair draw depends on the state at that point. So the model reads each raw draw `d` as
`randint(0, m - 1) == d % m`.

Each imperative step is proved against a specification function on values: `Repaired`,
`Score`, `Bred`, `Crossed`, `Mutated`, `StableOrder`, `Reorder` and `CounterAfter`. The
properties are proved as lemmas about those functions:
- repair restores k centers;
- the score is the true k-center cost;
- the children obey the segment law;
- crossover keeps the elite;
- mutation is a parity flip;
- the sort is a stable permutation;
- the counter measures the final plateau.

`epochs_unchanged` is never assigned before the loop. If the first generation's best
score equals the initial `previous_score` of 0, incrementing it raises
`UnboundLocalError`. The model keeps this error path as the outcome `CounterUnbound`.
`CounterTracksRun` and `CrashOnlyAtFirstGeneration` state exactly when it happens.

## Model

| member | source | states |
|---|---|---|
| Params.MutationCount | genetic.py:14-17 | `int(mutation_rate * population)` truncates toward zero: r * den <= num * population < (r + 1) * den |
| Params.SourceConfig | genetic.py:10-17 | the file's own values meet the model's conditions; half the population is 70, 62 slots are re-seeded and 28 mutations happen per generation |
| Genes.CountOnes | genetic.py:74 | `count(1)` never exceeds the length of the chromosome |
| Genes.CountOnesUpdate | genetic.py:91 | writing one gene changes the count of ones by what left that position and what arrived there |
| Genes.CountOnesNone | genetic.py:26 | a chromosome without a 1 counts no centers |
| Genes.OnesOf | genetic.py:76-78 | the center list built by scanning holds j exactly when gene j is 1, in increasing order, and has as many entries as the chromosome has ones |
| Genes.Vacant | genetic.py:94-101 | the nodes the add step can accept are exactly those whose gene is not 1; there are N minus the count of ones of them |
| Genes.PopAt | genetic.py:89 | `list.pop(idx)` shortens the list by one, keeps every other element and adds none; on a duplicate-free list the popped element is gone and the list stays duplicate-free |
| Genes.SeededChromosome | genetic.py:26-31 | a chromosome of zeros with a 1 at each of k sampled positions is binary, holds exactly k ones, and its ones are exactly the sample |
| Genes.CollectCenters | genetic.py:76-78 | the scanning loop produces exactly the center list `OnesOf` |
| Genes.PlaceCenters | genetic.py:30-31 | the loop `for j in pos: chromosome[j] = 1` sets exactly the sampled positions |
| Init.InitializeChromosomes | genetic.py:20-33 | `population` fresh chromosomes, each of length N, binary, with exactly k ones at its sample |
| Objective.MaxOf | genetic.py:57 | Python's `max` returns an element that bounds every element |
| Objective.MinOf | genetic.py:38-39 | the least element of a non-empty list, used by the reference k-center cost |
| Objective.RunningMin | genetic.py:44-54 | `minimum` after the inner loop is at most the sentinel 100000, at most every distance, and either the sentinel or one of the distances |
| Objective.Nearest | genetic.py:43-54 | `closest_center_distance[i]` is 0 for a center and always below the sentinel. For any other node it is at most every distance to the first k centers that is under the sentinel; it is one of those distances or 0, and it is exactly one of them whenever one of them is under the sentinel; and it is 0 when every distance reaches the sentinel |
| Objective.ScoreIsWorstNode | genetic.py:57 | the score bounds every node's recorded distance, some node attains it, and it is below the sentinel |
| Objective.NearestDependsOnCenterSet | genetic.py:43-54 | a node's recorded nearest-center distance is the same for any two lists of k centers that hold the same nodes, whatever their order |
| Objective.ScoreDependsOnCenterSet | genetic.py:42-59 | two lists of k centers holding the same nodes, in any order, get the same objective value |
| Objective.ScoreIsKCenterCost | genetic.py:36-59 | with zero self-distances, distances below the sentinel and exactly k centers, the score is the true k-center cost (max over nodes of the min distance to a center) |
| Objective.ObjectiveValue | genetic.py:36-59 | the double loop over nodes and centers returns exactly the score `Score` |
| Fitness.RepairStep | genetic.py:85-105 | one repair pass keeps the center list in step with the chromosome. It shrinks the list by one and only clears genes when there are too many centers, and grows it by one and only sets genes when there are too few |
| Fitness.RepairRestoresK | genetic.py:82-108 | when the repair loop ends, the chromosome holds exactly k ones, the list lists each once, and every change went in the one direction the initial count called for |
| Fitness.RescoreRepaired | genetic.py:72-111 | scoring a repaired chromosome again, with any draws, gives the score it was given |
| Fitness.RepairKeepsBinary | genetic.py:91 | repair writes only 0 and 1, so a binary chromosome stays binary |
| Fitness.RepairedRow | genetic.py:80-108 | the repaired chromosome keeps its length and holds exactly k ones; a chromosome that already holds k ones skips the loop and is left as it is |
| Fitness.RepairedCenters | genetic.py:72-108 | the repaired center list has exactly k entries, all nodes of the graph; for a chromosome that already holds k ones it is the list of its ones in increasing order, as the scan built it |
| Fitness.RepairOnce | genetic.py:85-105 | the body of the repair loop computes the pure step `RepairStep` |
| Fitness.RepairChromosome | genetic.py:82-108 | the repair loop, with its recount after every pass, computes `Repaired` and leaves a consistent list of k centers |
| Fitness.RepairAndScore | genetic.py:82-111 | one round of the second loop repairs the chromosome and records the score of its repaired center list |
| Fitness.ListCenters | genetic.py:67-78 | the first loop records the center list `OnesOf` of every chromosome |
| Fitness.RepairSlot | genetic.py:80-111 | slot i is replaced by its repaired form and scored; no other slot changes |
| Fitness.Fitness | genetic.py:62-115 | every chromosome is repaired in place to length N with exactly k ones, and its score is the objective of its repaired center list |
| Crossover.Ordered | genetic.py:137-141 | the swap orders the two cut points and keeps both |
| Crossover.Offspring | genetic.py:144-148 | a child has its parents' length |
| Crossover.OffspringSegments | genetic.py:144-148 | a child agrees with the other parent inside [point1, point2] and with its own parent outside |
| Crossover.OffspringSwapBack | genetic.py:143-148 | crossing the two children again at the same points gives both parents back |
| Crossover.SharedGenesKeepOnes | genetic.py:143-148 | two lists that share out two parents' genes position by position hold as many ones as the parents |
| Crossover.OffspringKeepOnes | genetic.py:143-148 | the two children of a pair hold as many centers together as their parents, and are binary when the parents are |
| Crossover.Reseed | genetic.py:152-158 | re-seeding a slot leaves zeros with a 1 at each sampled position |
| Crossover.Child | genetic.py:133-148 | the child a pair leaves at its cut points has its parents' length |
| Crossover.Bred | genetic.py:133-148 | breeding keeps the population size |
| Crossover.BredShape | genetic.py:133-148 | breeding keeps every chromosome of length N and leaves the slots below the ones written so far untouched |
| Crossover.BredNext | genetic.py:143-148 | pair q breeds from the population the earlier pairs left, in which its parents are still the original ones |
| Crossover.BredChild | genetic.py:144-148 | pair q's first child sits in slot size - 1 - 2q and its second child in slot size - 2 - 2q |
| Crossover.BredChildren | genetic.py:133-148 | after the pairing loop, every pair's two children sit in their two slots counted from the end |
| Crossover.BreedPair | genetic.py:134-148 | one pass of the pairing loop writes the two children into their slots and changes nothing else |
| Crossover.Breed | genetic.py:133-148 | the pairing loop produces `Bred` and keeps every chromosome of length N |
| Crossover.ReseedParents | genetic.py:150-158 | slots 8 up to half the population hold fresh seeded chromosomes, and no other slot changes |
| Crossover.Crossed | genetic.py:118-158 | crossover keeps the population size and every chromosome of length N |
| Crossover.CrossedChildren | genetic.py:133-148 | after crossover each pair's children sit in their two slots of the worst half |
| Crossover.CrossedKeepsElite | genetic.py:129-130 | ranks 0 to 7, and the middle slot an odd population leaves between the halves, come through crossover unchanged |
| Crossover.CrossedReseeds | genetic.py:150-158 | the re-seeded ranks are binary, of length N, and hold exactly k centers at the sampled positions |
| Crossover.BredBinary | genetic.py:133-148 | breeding keeps a binary population binary |
| Crossover.CrossedBinary | genetic.py:118-158 | crossover keeps every chromosome of length N and a binary population binary |
| Crossover.Crossover | genetic.py:118-158 | the two loops of crossover transform the population into exactly `Crossed` of it |
| Mutation.Flip | genetic.py:173 | one mutation turns gene (xx, yy) into 1 minus its value and changes no other gene |
| Mutation.Mutated | genetic.py:167-173 | mutation keeps the population size and every chromosome's length |
| Mutation.Hits | genetic.py:167-171 | no event hits gene (x, y) exactly when the hit count is 0 |
| Mutation.MutationParity | genetic.py:167-173 | a gene ends up flipped exactly when an odd number of events hit it |
| Mutation.MutationKeepsBinary | genetic.py:173 | flipping 0/1 genes leaves a binary population binary |
| Mutation.Mutation | genetic.py:161-173 | the mutation loop transforms the population into exactly `Mutated` of it |
| Ranking.Insert | genetic.py:191 | inserting an index keeps the indices in range and adds exactly that index |
| Ranking.InsertKeepsRanked | genetic.py:191 | inserting a new index into a ranked list keeps it in (score, index) order |
| Ranking.RankPrefix | genetic.py:191 | the ranked prefix lists each of the indices 0 .. m-1 |
| Ranking.RankPrefixRanked | genetic.py:191 | the ranked prefix is in strictly increasing (score, index) order |
| Ranking.StableOrderSorts | genetic.py:190-192 | `sorted_indexes` is a permutation of the indices, scores never decrease along it, equal scores keep their index order, and it starts at a lowest score |
| Ranking.Reorder | genetic.py:195 | the rearranged list has one chromosome per listed index |
| Ranking.DropLargest | genetic.py:192 | removing the largest index from a permutation leaves a permutation of the others |
| Ranking.ReorderSplit | genetic.py:195 | rearranging puts the last chromosome where the largest index sits and the others in the order of the remaining indices |
| Ranking.ReorderPermutes | genetic.py:193-195 | rearranging by a permutation gives back the same chromosomes, each as often as before |
| Ranking.MultisetInsert | genetic.py:195 | inserting one chromosome anywhere in a list adds it once to the list's multiset |
| Ranking.Rearrange | genetic.py:193-195 | the new list holds the chromosomes in exactly the given order |
| Search.TrailingRun | genetic.py:212-215 | the final run of equal best scores is non-empty, all its scores are equal, and the score before it differs |
| Search.CounterTracksRun | genetic.py:184-215 | `epochs_unchanged` cannot be read exactly when the first best score is 0; otherwise it equals the length of the final run of equal best scores |
| Search.CrashOnlyAtFirstGeneration | genetic.py:184-213 | if the counter cannot be read, this happens in the first generation, whose best score was 0 |
| Search.ConvergedMeansPlateau | genetic.py:219-221 | a `break` on max_epochs means the last max_epochs best scores are all equal |
| Search.ScorePopulation | genetic.py:187 | fitness repairs and scores every chromosome and keeps the population binary and of length N |
| Search.RankAndReport | genetic.py:189-204 | the rearranged population is the population in the stable score order. The report (cost, centers, count) is about the chromosome the stable sort puts first, which is rank 0: no chromosome scores lower, and every chromosome before it scores more, so ties go to the lowest index |
| Search.RankGeneration | genetic.py:186-204 | the ranked population is `RankedPop`: the repaired chromosomes in the stable order of their scores. The reported cost is the score of a chromosome of the population the generation started from, and that chromosome, once repaired, holds exactly the reported centers. No chromosome scores lower and every one before it scores more. The cost is below the sentinel, and the report lists k centers in increasing order and counts k |
| Search.FitnessResults | genetic.py:62-115 | what fitness leaves slot by slot is the repaired population and its list of scores |
| Search.RankedReport | genetic.py:189-204 | the report taken from rank 0 of the scored population has the score and the repaired centers of the first chromosome with the lowest score, and is well formed |
| Search.RankedPop | genetic.py:187-195 | the ranked population has one chromosome of N genes per slot |
| Search.RankedFirst | genetic.py:187-195 | rank 0 of the ranked population is the first chromosome with the lowest score, as fitness repaired it |
| Search.UnmutatedKeepsBest | genetic.py:133-173 | with no mutation events, the chromosome ranked first starts the next generation in slot 0 |
| Search.UnmutatedBestNeverRises | genetic.py:187-209 | with no mutation events, the next generation's reported cost is at most this generation's |
| Search.Reproduce | genetic.py:206-209 | crossover then mutation transform the ranked population into `Mutated(Crossed(...))` of it and keep it well formed |
| Search.Generation | genetic.py:185-209 | one generation leaves a fresh, well-formed population that is `NextPop` of the one it started from: fitness, the stable sort, crossover and mutation. Its report is about the first chromosome with the lowest score in the population the generation started from: the report has that chromosome's score and its repaired centers |
| Search.CostsAppend | genetic.py:202 | reporting one more generation appends its cost |
| Search.CounterStep | genetic.py:211-217 | one more generation advances the counter from the previous score and the old counter |
| Search.CountEpochs | genetic.py:211-215 | the counter update is `Advance`: one more on an unchanged score, 1 otherwise, and the error on an unassigned counter |
| Search.LoopPass | genetic.py:185-217 | one pass of the loop leaves `NextPop` of the population it started from. It reports generation g about the best chromosome of that population (its score and its repaired centers, no chromosome scoring lower, ties to the lowest index) and advances the counter |
| Search.TraceLive | genetic.py:211-215 | while the loop runs, `epochs_unchanged` can be read |
| Search.TraceExtends | genetic.py:211-221 | a new report advances the counter as the costs say. Every report so far is well formed, none before the new one stopped the run, and the loop's state extends to the new one unless the run stops |
| Search.WitnessedExtends | genetic.py:185-204 | a generation's report, tied to the population it started from, extends the reports of the earlier generations, each tied to its own population |
| Search.ChainExtends | genetic.py:185-209 | the population a generation leaves, `NextPop` of the last one, extends the chain of populations |
| Search.ChainPrefix | genetic.py:185-209 | dropping the last population of a chain leaves a chain |
| Search.ChainedAt | genetic.py:185-209 | in a chain, population g + 1 is `NextPop` of population g with generation g's draws |
| Search.RecordedPass | genetic.py:185-221 | one pass of the loop extends the run's record by the new report, the population it is about, and the population the pass leaves, chained to it by `NextPop`. The counter is the one the reported costs determine, and the loop's state carries on unless the run stops |
| Search.EndsHalted | genetic.py:211-221 | a run that stops after its last report ends with the error when the counter cannot be read, and with the `break` otherwise |
| Search.EndsExhausted | genetic.py:185-221 | a run that went through all max_generations generations without stopping ends exhausted |
| Search.Pass | genetic.py:185-221 | one generation of the loop either keeps the running state (reports, their populations, the chain, the counter) for the next generation, or finishes the run after this report with the error or the `break`, as the counter calls for |
| Search.RunsOut | genetic.py:185-221 | a run that went through every generation without stopping has finished exhausted, with its reports and populations |
| Search.Evolve | genetic.py:184-221 | the loop, from a given first population, finishes: every report is about the best chromosome of the population its generation started from, the first of these populations is the given one, each later one is `NextPop` of the one before, and the outcome is the one the reported costs determine |
| Search.UnmutatedRunNeverRises | genetic.py:185-209 | in a run whose mutation count is 0, the reported cost never rises from one generation to the next |
| Search.GeneticAlgorithm | genetic.py:177-227 | the run reports at most max_generations generations, each well formed, and none of them stopped it except possibly the last. Each report is about the best chromosome of the population its generation started from. The first population is the seeded one, and each later one is `NextPop` of the one before: fitness, the stable sort, crossover and mutation. When the mutation count is 0, the reported cost never rises from one generation to the next. It ends with the error exactly when the counter cannot be read, converges exactly when the counter reaches max_epochs, and otherwise runs all generations |

## Left out

- Graph loading (`nx.read_gexf`) is not modelled; the graph is given as a distance matrix over nodes 0 .. N-1, which is what `for i in Graph.nodes` with `closest_center_distance[i]` assumes.
- Printing is not modelled as I/O; the four values printed per generation are returned as the `history` of `Progress` records.
- The random number generators are not modelled: each random result is an input. Their distribution, and the seeding of `random` and `rng`, are outside the model.
- Fitness.RepairStep: the add step picks `Vacant(row)[d % |Vacant(row)|]` instead of running the rejection loop `while rand_center in centers`. The set of possible outcomes is the same, but the number of draws and their distribution are not.
- Params.MutationCount: the float `mutation_rate` is the fraction rateNum / rateDen, and the count is the floor of the exact product rateNum * population / rateDen. For the file's `0.2 * 140`, floating point gives exactly 28.0, so the two agree. They do not agree for every rate: `0.29 * 100` evaluates to 28.999999999999996 and truncates to 28, where the model gives 29.
- Objective.Score: `int(...)` around the objective is the identity on the natural-number distances of the model. Fractional edge weights are not modelled.
- Crossover.Breed: an odd half population h = `int(population / 2)` is not modelled. With an even population 2h, the last pair (i = h - 1) writes its first child into slot h = i + 1 and its second child into slot i, both its own parents. The in-place copies then read a parent already overwritten. With an odd population 2h + 1, the children of that pair come out as the segment law says, because the second child's slot h is the parent it copies first; the model excludes this case too. The file's constants give a half of 70.
- Params.ValidConfig: an empty graph, more centers than nodes, or an empty population are excluded. The source fails on them with a `max()` of an empty list, a `random.sample` error or an `IndexError`.
- The `clear()` calls at the end of a generation are not modelled; they only empty lists that are rebuilt before their next use.
- Search.GeneticAlgorithm: does not return the population the last generation leaves, which the source discards; the returned populations are those the generations started from.
