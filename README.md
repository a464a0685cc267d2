# Genetic search for cheap 3D prints — a Dafny model

`AnaliseImpressao3D.py` searches a fixed catalog of 17 printable models for a set of
three distinct models that is cheap to print. A set's cost is filament cost plus 2
currency units per print hour. Its fitness maps that cost linearly onto a score and
clamps the score to [1, 100].

The search keeps a population of ten such sets. Each generation:

- it replaces the population by crossover and mutation offspring of the best set;
- it records the score of the new best set in a trace;
- it stops once the best set (as a set of genes) has stayed the same for ten
  generations in a row, or after 1000 generations.

A baseline scores 100 random sets and sorts them by descending score. It reports:

- the best score;
- for the three best sets, the filament cost, the filament mass and the average
  price per kilogram.

The model has five modules, one file each:

- `Catalog` (`catalog.dfy`): the catalog records, and the shape of an individual
  (three distinct in-range catalog indices).
- `Fitness` (`fitness.dfy`): the fitness loop as a method, proved equal to a score
  function. Lemmas on that function cover its bounds, its linear formula, its
  monotonicity and the worked example [0, 1, 2].
- `Genetics` (`genetics.dfy`): the operators.
  - Selection is a first-maximal argmax.
  - Crossover is the slice and filter of the Python program.
  - Mutation assigns one slot of an array in place, as the Python program assigns one
    slot of its list.
- `Evolution` (`evolution.dfy`):
  - `Engine` is a class whose fields are the population and the score trace. Its
    `Run` method clears the trace, keeps the population from the previous run,
    and loops over generations with the stagnation counter and the early exit.
  - `Run` is proved equal to the loop function `Evolve`.
  - `Reachable` describes the one outcome a run may end with: it stops at the
    first generation whose last ten elites share their genes, or after 1000
    generations when none does. `RunFacts` proves that the loop ends there and
    `ReachableUnique` that no other outcome qualifies.
- `Baseline` (`baseline.dfy`):
  - the batch is scored into an array;
  - a stable insertion sort orders it in place by descending score;
  - a loop accumulates the cost and mass of each of the three best.

Every random draw of the Python program is a parameter whose range a `requires` clause
states:

- the crossover cut, `randint(1, 2)`;
- the mutation roll, `random()` in [0, 1), with mutation when it is below 0.2;
- the new gene, `randint(0, 16)`;
- its position, `randint(0, 2)`.

One `Draw` per offspring, one row of ten per generation and 1000 rows make a
`Schedule`. The initial population and the baseline's 100 random sets are
parameters holding valid individuals.

The per-item filament costs, print times and filament masses are tables copied out
of the catalog records. `ItemFilamentCostFormula`, `ItemHoursFormula` and
`ItemGramsFormula` check each entry against its record. The imperative loops read
the records themselves, as the Python program does.

Selection on the old population is deterministic, so both parents of every
offspring are the same elite set. Crossing a valid set with itself gives it back
(`CrossoverSelf`). Hence `Offspring` is defined as the elite after the drawn
mutation, and `OffspringFromElite` proves that this is exactly
`Mutated(Crossover(Select(pop), Select(pop), cut), ...)`. The `Child` method
performs the Python program's steps (select, select, cross, mutate in place) and is
proved to produce `Offspring`.

## Model

| member | source | states |
|---|---|---|
| Fitness.ItemFilamentCostFormula | AnaliseImpressao3D.py:37-39 | each per-item filament cost entry is the record's grams times its price per kilogram divided by 1000 |
| Fitness.ItemHoursFormula | AnaliseImpressao3D.py:40 | each per-item print time entry is the record's print time |
| Fitness.Clamp | AnaliseImpressao3D.py:46 | max(1, min(100, p)) lies in [1, 100] and leaves a value already in [1, 100] unchanged |
| Fitness.ScoreFrom | AnaliseImpressao3D.py:36-46 | resuming the fitness loop after any number of genes yields a score in [1, 100] |
| Fitness.Score | AnaliseImpressao3D.py:33-46 | the fitness of every individual with in-range genes lies in [1, 100] |
| Fitness.ScoreFromPrefix | AnaliseImpressao3D.py:36-46 | the loop resumed with the exact sums of the first k genes ends at the clamped normalization of the whole individual's total cost |
| Fitness.ScoreFormula | AnaliseImpressao3D.py:42-46 | fitness = clamp(100 - ((C - 15) / 485) * 99), where C is the filament cost plus twice the print hours |
| Fitness.ComputeFitness | AnaliseImpressao3D.py:33-46 | the accumulating loop over the genes returns exactly the fitness of the individual |
| Fitness.ScoreAntitone | AnaliseImpressao3D.py:42-46 | a larger total cost never gives a larger score |
| Fitness.ItemCostBounds | AnaliseImpressao3D.py:10-28 | one catalog item costs between 5.475 and 50.4 (filament plus time) |
| Fitness.TotalCostBounds | AnaliseImpressao3D.py:36-42 | an individual's total cost lies between 5.475 and 50.4 times its number of genes |
| Fitness.ScoreIsLinearForValid | AnaliseImpressao3D.py:42-46 | for three genes the cost lies strictly inside (15, 500), the clamp never acts and the score lies strictly inside (1, 100) |
| Fitness.FirstThreeItems | AnaliseImpressao3D.py:11-13 | items [0, 1, 2] have filament cost 20.65, total cost 38.65 and score 100 - (23.65 / 485) * 99, between 95.17 and 95.18 |
| Genetics.BestIndex | AnaliseImpressao3D.py:54-55 | the index max() ends on lies within the population; BestIndexIsFirstMax gives its maximality |
| Genetics.Select | AnaliseImpressao3D.py:54-55 | the selected individual has in-range genes; SelectIsFirstMax gives that it is the first best member |
| Genetics.BestIndexIsFirstMax | AnaliseImpressao3D.py:54-55 | the index max() ends on scores at least as much as every member, and every earlier member scores strictly less |
| Genetics.SelectIsFirstMax | AnaliseImpressao3D.py:54-55 | the selected individual is a member, no member scores more, and it is the first member with its score |
| Genetics.Without | AnaliseImpressao3D.py:59 | the filtered mother is no longer than the mother |
| Genetics.WithoutMembers | AnaliseImpressao3D.py:59 | every gene kept by the filter is a gene of the mother and not in the father's prefix |
| Genetics.WithoutDistinct | AnaliseImpressao3D.py:59 | filtering a duplicate-free list keeps it duplicate-free |
| Genetics.WithoutLength | AnaliseImpressao3D.py:59 | filtering a duplicate-free list against a prefix drops at most as many genes as the prefix has |
| Genetics.WithoutAgrees | AnaliseImpressao3D.py:59 | the filter depends only on which of the list's genes are in the prefix |
| Genetics.AppendFresh | AnaliseImpressao3D.py:59 | appending genes new to a duplicate-free in-range prefix keeps it duplicate-free and in range |
| Genetics.CrossoverValid | AnaliseImpressao3D.py:57-60 | from valid parents and a cut in {1, 2}, the child has exactly three distinct in-range genes: the father's first cut genes, then mother genes not among them |
| Genetics.CrossoverSelf | AnaliseImpressao3D.py:57-60 | crossing a valid individual with itself gives it back |
| Genetics.WithoutSuffix | AnaliseImpressao3D.py:59 | filtering a duplicate-free list against its own prefix leaves the matching suffix |
| Genetics.WithoutAppend | AnaliseImpressao3D.py:59 | the filter distributes over concatenation |
| Genetics.WithoutSplit | AnaliseImpressao3D.py:59 | filtering a list equals filtering its two halves and concatenating the results |
| Genetics.WithoutNone | AnaliseImpressao3D.py:59 | a list none of whose genes is in the prefix passes the filter unchanged |
| Genetics.WithoutAll | AnaliseImpressao3D.py:59 | a list all of whose genes are in the prefix is filtered to nothing |
| Genetics.Crossover | AnaliseImpressao3D.py:57-60 | the child never has more than three genes, and when the father has at least cut genes it starts with the father's first cut genes (CrossoverValid gives the rest) |
| Genetics.Mutated | AnaliseImpressao3D.py:62-67 | mutation keeps the number of genes (MutationEffect gives which slot changes and when) |
| Genetics.Mutate | AnaliseImpressao3D.py:62-67 | the in-place assignment leaves the array holding the mutated individual |
| Genetics.MutationEffect | AnaliseImpressao3D.py:62-67 | no change when the roll is at least 0.2 or the new gene is present; otherwise exactly the drawn position takes the new gene and the others are untouched; a valid individual stays valid |
| Evolution.Offspring | AnaliseImpressao3D.py:101-104 | every offspring of a valid population is a valid individual |
| Evolution.OffspringFromElite | AnaliseImpressao3D.py:101-104 | crossing the two selected parents gives the elite back, and the offspring equals the mutated crossover: the elite itself, or the elite with the drawn position replaced |
| Evolution.Child | AnaliseImpressao3D.py:101-104 | selecting, crossing and mutating in place yields exactly the offspring |
| Evolution.NextGeneration | AnaliseImpressao3D.py:99-106 | the new generation has one valid offspring per draw |
| Evolution.Breed | AnaliseImpressao3D.py:99-105 | the inner loop appends offspring in draw order and builds exactly the next generation |
| Evolution.Populations | AnaliseImpressao3D.py:98-106 | every generation of a run keeps the population size and holds valid individuals |
| Evolution.BestAt | AnaliseImpressao3D.py:108 | each generation's elite is a valid individual |
| Evolution.Step | AnaliseImpressao3D.py:99-116 | one pass of the loop body keeps the population size and validity and adds exactly one trace entry |
| Evolution.Elites | AnaliseImpressao3D.py:108 | the first n generations have n elites, all valid |
| Evolution.Scores | AnaliseImpressao3D.py:115-116 | the score list has one entry per elite, each entry the fitness of that elite |
| Evolution.TrackKeepsStreak | AnaliseImpressao3D.py:109-113 | the counter window stays exact: an increment (same sorted genes as the remembered elite) widens the window of equal elites by the new one, a reset opens a window of one at the new elite, whose genes differ from the elite before it |
| Evolution.TrackFacts | AnaliseImpressao3D.py:109-113 | the counter is reset to 1 or grows by one, the remembered elite always has the new elite's genes, and a counter above 1 keeps the elite it remembered |
| Evolution.StreakStagnation | AnaliseImpressao3D.py:109-127 | with an exact counter window and at least ten elites, the last ten elites share their genes exactly when the counter is at least ten |
| Evolution.ReachableUnique | AnaliseImpressao3D.py:98-129 | a run has exactly one reachable outcome, so the stopping rule determines where it ends |
| Evolution.TraceExtends | AnaliseImpressao3D.py:115-116 | one more generation appends its elite's fitness to the trace |
| Evolution.StepFacts | AnaliseImpressao3D.py:106-108 | the population after the loop body is the next generation of the run, and its selection is that generation's elite |
| Evolution.StreakStep | AnaliseImpressao3D.py:108-113 | after one more generation the counter window is exact over the run's elites, the counter is at most ten, and (from ten elites on) it reaches ten exactly when the last ten elites share their genes |
| Evolution.NotStagnatedExtends | AnaliseImpressao3D.py:127-129 | a run that goes on past a generation with a counter below ten has not stagnated at that generation |
| Evolution.EvolveStep | AnaliseImpressao3D.py:98-129 | one pass of the loop appends the new elite's fitness and then stops when the counter reaches ten, or goes on from the next generation |
| Evolution.EvolveShape | AnaliseImpressao3D.py:98-129 | the loop ends within 1000 generations, adds one trace entry per generation it ran, keeps the population size, and ends early only on convergence |
| Evolution.EvolveStepFromStart | AnaliseImpressao3D.py:98-129 | one generation of the loop either stops with the run's next population and trace or goes on from them |
| Evolution.EvolveFacts | AnaliseImpressao3D.py:98-129 | from any state of a run with an exact counter window below ten and no earlier stagnation, the loop ends in the reachable outcome |
| Evolution.ContinueReachable | AnaliseImpressao3D.py:98-129 | a generation before the 1000th either stops on the tenth equal elite or continues, and in both cases the run ends in the reachable outcome |
| Evolution.StoppedReachable | AnaliseImpressao3D.py:127-129 | stopping after n generations, at the first stagnation or at 1000 without one, leaves the reachable outcome: the population and trace of the first n generations |
| Evolution.RunFacts | AnaliseImpressao3D.py:94-129 | a run with an empty trace and a zero counter ends in the reachable outcome: it stops at the first generation (from the tenth on) whose last ten elites share their genes and only then, or after all 1000 generations when none does; it ran 10 to 1000 generations, with one trace entry per generation, each the fitness of that generation's elite, and ends with the population those generations built |
| Evolution.Engine.constructor | AnaliseImpressao3D.py:76-78 | the engine starts with the given valid population of ten and an empty trace |
| Evolution.Engine.Generation | AnaliseImpressao3D.py:99-116 | the population becomes the next generation, one entry (the fitness of its elite) is appended to the trace, the counter follows Track, and the loop from the old state equals stopping or the loop from the new state |
| Evolution.Engine.Run | AnaliseImpressao3D.py:92-129 | the run clears the trace, keeps the previous population as its start, and ends with exactly the population and trace of the loop function |
| Baseline.Evaluated | AnaliseImpressao3D.py:139 | each sample is paired with its own fitness, in batch order |
| Baseline.EvaluateAll | AnaliseImpressao3D.py:139 | the scoring loop fills a fresh array with the evaluated batch |
| Baseline.SortByScore | AnaliseImpressao3D.py:140 | the in-place sort leaves the array in non-increasing score order and a permutation of its old contents |
| Baseline.RankedFacts | AnaliseImpressao3D.py:140-141 | a descending permutation has the same length, holds only entries of the batch, and its head scores at least as much as every entry |
| Baseline.EvaluatedMember | AnaliseImpressao3D.py:139 | every evaluated entry is a valid sample paired with its own fitness |
| Baseline.Summarize | AnaliseImpressao3D.py:144-159 | the cost and mass loop yields the filament cost, the mass and the average price per kilogram of the individual |
| Baseline.ItemGramsFormula | AnaliseImpressao3D.py:150-152 | each per-item mass entry is the record's filament mass |
| Baseline.Mass | AnaliseImpressao3D.py:145-152 | the summed filament mass is zero exactly for the individual with no genes |
| Baseline.AveragePrice | AnaliseImpressao3D.py:159 | for a positive mass the average price times the mass is 1000 times the cost, so it is cost per gram times 1000; with no filament it is 0 |
| Baseline.SummaryOf | AnaliseImpressao3D.py:143-159 | the reported mass is zero exactly for the empty individual; otherwise the average price times the mass is 1000 times the filament cost, and an empty individual reports cost and price 0 |
| Baseline.ItemPriceBounds | AnaliseImpressao3D.py:10-28 | each item's filament cost lies between 110 and 180 per kilogram of its positive mass |
| Baseline.CostWithinPrices | AnaliseImpressao3D.py:147-151 | summed over genes, the filament cost lies between 110 and 180 per kilogram of the total mass, and that mass is positive for a non-empty individual |
| Baseline.QuotientBounds | AnaliseImpressao3D.py:159 | dividing by a positive mass keeps bounds stated in multiples of that mass |
| Baseline.AveragePriceWithin | AnaliseImpressao3D.py:159 | a cost within the price range for its positive mass gives an average price in [110, 180] |
| Baseline.AveragePriceBounds | AnaliseImpressao3D.py:159 | a non-empty individual has positive mass and an average price per kilogram between 110 and 180; the empty individual reports 0 |
| Baseline.ReportTop | AnaliseImpressao3D.py:143-159 | the report holds the summaries of the first three ranked individuals, in rank order |
| Baseline.Compare | AnaliseImpressao3D.py:135-159 | the ranked batch is a non-increasing permutation of the scored samples. The best score is its head: no sample scores more and some sample scores exactly that. The three summaries belong to the three best-ranked individuals |

## Left out

- The tkinter window, the text box and its messages, the buttons, `root.update()`
  and `time.sleep(0.5)` are user interface and pacing, with no effect on the computed
  values.
- The matplotlib chart `plotar_comparativo` and the `__main__` launcher are
  plotting and startup code.
- The `random` module is replaced by parameters whose ranges `requires` clauses
  state. `gerar_populacao` is modelled only as the requirement that the initial
  population holds ten valid individuals; `gerar_combinacoes_aleatorias` only as
  the requirement that the baseline's 100 samples are valid.
- IEEE floating-point rounding in the fitness and the average price is left out:
  both are computed with exact real arithmetic.
- The `:.2f` formatting of scores and costs is presentation only.
- Baseline.SortByScore: the contract states order and permutation but not
  stability. The insertion sort moves an entry only past strictly smaller scores,
  so it keeps equal scores in their original order as Python's sort does, but this
  is not proved. Which of several equally scored sets appear in the top three
  therefore follows from the code, not from the contract.
- Lists are values in the model. The Python program never mutates a list after it is
  placed in a population (mutation acts on a freshly built child), so aliasing
  between the population, the previous elite and the children does not arise.
