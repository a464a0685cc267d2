/** The evolution engine: each generation replaces the whole population by
    crossover and mutation offspring of the elite, records the score of the
    new elite in a trace, and stops once the same elite (as a set of genes)
    has been seen for ten generations in a row, or after 1000 generations. */
module Evolution {
  import opened Catalog
  import opened Fitness
  import opened Genetics

  const MaxGenerations: nat := 1000
  const ConvergenceStreak: nat := 10
  const PopulationSize: nat := 10

  datatype Option<T> = None | Some(value: T)

  /** The four random draws behind one offspring: the crossover cut
      (randint(1, 2)), the mutation roll (random()), the new gene
      (randint(0, 16)) and the position it goes to (randint(0, 2)). */
  datatype Draw = Draw(cut: int, roll: real, gene: int, pos: int)

  predicate ValidDraw(d: Draw)
  {
    1 <= d.cut <= 2 && 0.0 <= d.roll < 1.0 &&
    0 <= d.gene < CatalogSize && 0 <= d.pos < GenesPerIndividual
  }

  /** One row of draws per generation, one draw per population slot. */
  predicate Schedule(draws: seq<seq<Draw>>, size: nat)
  {
    |draws| == MaxGenerations &&
    forall g :: 0 <= g < |draws| ==>
      |draws[g]| == size && forall s :: 0 <= s < size ==> ValidDraw(draws[g][s])
  }

  /** sorted(a) == sorted(b): the two lists hold the same genes. */
  predicate SameGenes(a: Individual, b: Individual)
  {
    multiset(a) == multiset(b)
  }

  /** One offspring for one draw.  Both parents the Python program selects are
      the elite of pop, so the offspring is the elite after the drawn
      mutation; OffspringFromElite shows that this is what crossing the
      selected parents and mutating the child yields. */
  function Offspring(pop: seq<Individual>, d: Draw): (child: Individual)
    requires |pop| > 0 && AllValid(pop) && ValidDraw(d)
    ensures ValidIndividual(child)
  {
    var elite := Select(pop);
    MutationEffect(elite, d.roll, d.gene, d.pos);
    Mutated(elite, d.roll, d.gene, d.pos)
  }

  /** mutacao(cruzamento(selecao(pop), selecao(pop))) is the offspring: the
      elite itself when the roll fails or the new gene is already present,
      otherwise the elite with exactly the drawn position replaced by the
      drawn gene. */
  lemma {:induction false} OffspringFromElite(pop: seq<Individual>, d: Draw)
    requires |pop| > 0 && AllValid(pop) && ValidDraw(d)
    ensures Crossover(Select(pop), Select(pop), d.cut) == Select(pop)
    ensures Offspring(pop, d) == Mutated(Crossover(Select(pop), Select(pop), d.cut), d.roll, d.gene, d.pos)
    ensures MutationRate <= d.roll || d.gene in Select(pop) ==> Offspring(pop, d) == Select(pop)
    ensures d.roll < MutationRate && d.gene !in Select(pop) ==>
              Offspring(pop, d) == Select(pop)[d.pos := d.gene]
  {
    CrossoverSelf(Select(pop), d.cut);
  }

  /** The generation that replaces pop: one offspring per draw, appended in
      the order of the draws, all valid. */
  function NextGeneration(pop: seq<Individual>, ds: seq<Draw>): (next: seq<Individual>)
    requires |pop| > 0 && AllValid(pop)
    requires forall s :: 0 <= s < |ds| ==> ValidDraw(ds[s])
    ensures |next| == |ds| && AllValid(next)
  {
    if ds == [] then []
    else NextGeneration(pop, ds[..|ds| - 1]) + [Offspring(pop, ds[|ds| - 1])]
  }

  /** The population after n generations, run without stopping. */
  function Populations(start: seq<Individual>, draws: seq<seq<Draw>>, n: nat): (pop: seq<Individual>)
    requires |start| > 0 && AllValid(start) && Schedule(draws, |start|)
    requires n <= MaxGenerations
    ensures |pop| == |start| && AllValid(pop)
  {
    if n == 0 then start
    else
      NextGeneration(Populations(start, draws, n - 1), draws[n - 1])
  }

  /** The elite of generation g (counting from 0). */
  function BestAt(start: seq<Individual>, draws: seq<seq<Draw>>, g: nat): (best: Individual)
    requires |start| > 0 && AllValid(start) && Schedule(draws, |start|)
    requires g < MaxGenerations
    ensures ValidIndividual(best)
  {
    var pop := Populations(start, draws, g + 1);
    var k := BestIndex(pop);
    assert ValidIndividual(pop[k]);
    Select(pop)
  }

  /** The stagnation counter: one more when the new elite has the genes of
      the previous one (which must be set and non-empty, as Python's
      truthiness test demands), otherwise restart at 1 from the new elite. */
  function Track(previous: Option<Individual>, streak: nat, best: Individual): (nat, Option<Individual>)
  {
    if previous.Some? && previous.value != [] && SameGenes(best, previous.value)
    then (streak + 1, previous)
    else (1, Some(best))
  }

  /** The counter is reset to 1 or grows by one, and the elite it
      remembers always has the new elite's genes; a counter above 1 keeps
      the elite it remembered. */
  lemma {:induction false} TrackFacts(previous: Option<Individual>, streak: nat, best: Individual)
    ensures var t := Track(previous, streak, best);
      && (t.0 == 1 || t.0 == streak + 1)
      && t.1.Some? && SameGenes(best, t.1.value)
      && (t.0 > 1 ==> t.1 == previous)
  {
  }

  /** What a run leaves behind: the last population, the score trace, how
      many generations ran, and whether it stopped on convergence. */
  datatype Outcome = Outcome(population: seq<Individual>, trace: seq<real>, generations: nat, converged: bool)

  /** One pass of the loop body: breed the next population, pick its elite,
      update the stagnation counter and append the elite's score to the
      trace.  The result is (population, counter, previous elite, trace). */
  function Step(pop: seq<Individual>, ds: seq<Draw>, streak: nat, previous: Option<Individual>,
                trace: seq<real>): (s: (seq<Individual>, nat, Option<Individual>, seq<real>))
    requires |pop| > 0 && AllValid(pop) && |ds| > 0
    requires forall s :: 0 <= s < |ds| ==> ValidDraw(ds[s])
    ensures |s.0| == |ds| && AllValid(s.0) && |s.3| == |trace| + 1
  {
    var next := NextGeneration(pop, ds);
    var best := Select(next);
    var (streak', previous') := Track(previous, streak, best);
    (next, streak', previous', trace + [Score(best)])
  }

  /** The generation loop from generation gen on. */
  function Evolve(pop: seq<Individual>, draws: seq<seq<Draw>>, gen: nat, streak: nat,
                  previous: Option<Individual>, trace: seq<real>): Outcome
    requires |pop| > 0 && AllValid(pop) && Schedule(draws, |pop|)
    requires gen <= MaxGenerations
    decreases MaxGenerations - gen
  {
    if gen == MaxGenerations then Outcome(pop, trace, gen, false)
    else
      var (next, streak', previous', trace') := Step(pop, draws[gen], streak, previous, trace);
      if streak' == ConvergenceStreak then Outcome(next, trace', gen + 1, true)
      else Evolve(next, draws, gen + 1, streak', previous', trace')
  }

  /** The loop from generation gen runs on to at most 1000 generations,
      adds one trace entry per generation it runs, keeps the population
      size, and stops early only on convergence. */
  lemma {:induction false} EvolveShape(pop: seq<Individual>, draws: seq<seq<Draw>>, gen: nat, streak: nat,
                                       previous: Option<Individual>, trace: seq<real>)
    requires |pop| > 0 && AllValid(pop) && Schedule(draws, |pop|)
    requires gen <= MaxGenerations
    ensures gen <= Evolve(pop, draws, gen, streak, previous, trace).generations <= MaxGenerations
    ensures |Evolve(pop, draws, gen, streak, previous, trace).trace| ==
              |trace| + (Evolve(pop, draws, gen, streak, previous, trace).generations - gen)
    ensures |Evolve(pop, draws, gen, streak, previous, trace).population| == |pop|
    ensures !Evolve(pop, draws, gen, streak, previous, trace).converged ==>
              Evolve(pop, draws, gen, streak, previous, trace).generations == MaxGenerations
    decreases MaxGenerations - gen
  {
    if gen < MaxGenerations {
      var s := Step(pop, draws[gen], streak, previous, trace);
      if s.1 != ConvergenceStreak {
        EvolveShape(s.0, draws, gen + 1, s.1, s.2, s.3);
      }
    }
  }

  /** The elites of the first n generations, in order. */
  function Elites(start: seq<Individual>, draws: seq<seq<Draw>>, n: nat): (elites: seq<Individual>)
    requires |start| > 0 && AllValid(start) && Schedule(draws, |start|)
    requires n <= MaxGenerations
    ensures |elites| == n && AllValid(elites)
  {
    if n == 0 then [] else Elites(start, draws, n - 1) + [BestAt(start, draws, n - 1)]
  }

  /** The fitness of each individual, in order. */
  function Scores(elites: seq<Individual>): (scores: seq<real>)
    requires AllValid(elites)
    ensures |scores| == |elites|
    ensures forall g :: 0 <= g < |elites| ==> scores[g] == Score(elites[g])
  {
    if elites == [] then [] else Scores(elites[..|elites| - 1]) + [Score(elites[|elites| - 1])]
  }

  /** The stagnation counter's window over the elites seen so far: no
      elite yet and no previous elite at the start; otherwise `previous` is
      the elite the window opened with, the last `streak` elites all have
      its genes, and the elite just before the window does not. */
  predicate StreakHolds(elites: seq<Individual>, streak: nat, previous: Option<Individual>)
    requires streak <= |elites|
  {
    if streak == 0 then elites == [] && previous.None?
    else
      && previous.Some?
      && previous.value == elites[|elites| - streak]
      && (forall g :: |elites| - streak <= g < |elites| ==> SameGenes(elites[g], previous.value))
      && (streak < |elites| ==> !SameGenes(elites[|elites| - streak - 1], previous.value))
  }

  /** The last ten elites all have the genes of the newest one. */
  predicate Stagnated(elites: seq<Individual>)
    requires ConvergenceStreak <= |elites|
  {
    forall g :: |elites| - ConvergenceStreak <= g < |elites| ==> SameGenes(elites[g], elites[|elites| - 1])
  }

  /** No generation count m from ten up to, but not including, n ends with
      ten elites of the same genes. */
  predicate NotStagnatedBefore(start: seq<Individual>, draws: seq<seq<Draw>>, n: nat)
    requires |start| > 0 && AllValid(start) && Schedule(draws, |start|)
    requires n <= MaxGenerations
  {
    forall m :: ConvergenceStreak <= m < n ==> !Stagnated(Elites(start, draws, m))
  }

  /** What a run that started from `start` ends with: the population and
      trace of its generations, stopping at the first generation whose last
      ten elites share their genes, or after 1000 generations when there is
      none. */
  predicate Reachable(start: seq<Individual>, draws: seq<seq<Draw>>, o: Outcome)
    requires |start| > 0 && AllValid(start) && Schedule(draws, |start|)
  {
    && 1 <= o.generations <= MaxGenerations
    && o.trace == Scores(Elites(start, draws, o.generations))
    && o.population == Populations(start, draws, o.generations)
    && NotStagnatedBefore(start, draws, o.generations)
    && (o.converged <==> ConvergenceStreak <= o.generations && Stagnated(Elites(start, draws, o.generations)))
    && (!o.converged ==> o.generations == MaxGenerations)
  }

  /** A run has exactly one outcome it may end with. */
  lemma {:induction false} ReachableUnique(start: seq<Individual>, draws: seq<seq<Draw>>, o: Outcome, o': Outcome)
    requires |start| > 0 && AllValid(start) && Schedule(draws, |start|)
    requires Reachable(start, draws, o) && Reachable(start, draws, o')
    ensures o == o'
  {
    var elites := Elites(start, draws, o.generations);
    var elites' := Elites(start, draws, o'.generations);
  }

  /** With a window of `streak` elites, the last ten elites share their
      genes exactly when the counter has reached ten. */
  lemma {:induction false} StreakStagnation(elites: seq<Individual>, streak: nat, previous: Option<Individual>)
    requires streak <= |elites| && ConvergenceStreak <= |elites|
    requires StreakHolds(elites, streak, previous)
    ensures Stagnated(elites) <==> ConvergenceStreak <= streak
  {
    var n := |elites|;
    assert SameGenes(elites[n - 1], previous.value);
    if streak < ConvergenceStreak {
      assert !SameGenes(elites[n - streak - 1], elites[n - 1]);
    }
  }

  /** One generation keeps the counter's window exact: an increment widens
      it by the new elite, a reset opens a window of one at the new elite,
      whose genes differ from those of the elite before it. */
  lemma {:induction false} TrackKeepsStreak(elites: seq<Individual>, streak: nat, previous: Option<Individual>, best: Individual)
    requires AllValid(elites) && streak <= |elites|
    requires StreakHolds(elites, streak, previous)
    ensures var t := Track(previous, streak, best);
      && t.0 <= streak + 1
      && StreakHolds(elites + [best], t.0, t.1)
  {
    var t := Track(previous, streak, best);
    var next := elites + [best];
    var n := |elites|;
    if previous.Some? && previous.value != [] && SameGenes(best, previous.value) {
      assert next[n - streak] == elites[n - streak];
      forall g | |next| - t.0 <= g < |next|
        ensures SameGenes(next[g], previous.value)
      {
        if g < n {
          assert next[g] == elites[g];
        }
      }
      if t.0 < |next| {
        assert next[n - streak - 1] == elites[n - streak - 1];
      }
    } else if n > 0 {
      assert ValidIndividual(elites[n - streak]);
      assert SameGenes(elites[n - 1], previous.value);
      assert next[n - 1] == elites[n - 1];
    }
  }

  /** One more generation appends its elite's score to the trace. */
  lemma {:induction false} TraceExtends(start: seq<Individual>, draws: seq<seq<Draw>>, n: nat)
    requires |start| > 0 && AllValid(start) && Schedule(draws, |start|)
    requires n < MaxGenerations
    ensures Scores(Elites(start, draws, n + 1)) == Scores(Elites(start, draws, n)) + [Score(BestAt(start, draws, n))]
  {
    assert Elites(start, draws, n + 1)[..n] == Elites(start, draws, n);
  }

  /** One unfolding of the generation loop. */
  lemma {:induction false} EvolveStep(pop: seq<Individual>, draws: seq<seq<Draw>>, gen: nat, streak: nat,
                   previous: Option<Individual>, trace: seq<real>)
    requires |pop| > 0 && AllValid(pop) && Schedule(draws, |pop|)
    requires gen < MaxGenerations
    ensures var next := NextGeneration(pop, draws[gen]);
            var best := Select(next);
            var t := Track(previous, streak, best);
            Evolve(pop, draws, gen, streak, previous, trace) ==
              if t.0 == ConvergenceStreak then Outcome(next, trace + [Score(best)], gen + 1, true)
              else Evolve(next, draws, gen + 1, t.0, t.1, trace + [Score(best)])
  {
  }

  /** The generation after generation gen, and its elite. */
  lemma {:induction false} StepFacts(start: seq<Individual>, draws: seq<seq<Draw>>, gen: nat, pop: seq<Individual>)
    requires |start| > 0 && AllValid(start) && Schedule(draws, |start|)
    requires gen < MaxGenerations
    requires pop == Populations(start, draws, gen)
    ensures NextGeneration(pop, draws[gen]) == Populations(start, draws, gen + 1)
    ensures Select(NextGeneration(pop, draws[gen])) == BestAt(start, draws, gen)
  {
  }

  /** The counter's window after one more generation, stated over the
      elites of the run, and whether that generation stops the run. */
  lemma {:induction false} StreakStep(start: seq<Individual>, draws: seq<seq<Draw>>, gen: nat, streak: nat, previous: Option<Individual>)
    requires |start| > 0 && AllValid(start) && Schedule(draws, |start|)
    requires gen < MaxGenerations && streak <= gen && streak < ConvergenceStreak
    requires StreakHolds(Elites(start, draws, gen), streak, previous)
    ensures var t := Track(previous, streak, BestAt(start, draws, gen));
      && t.0 <= gen + 1 && t.0 <= ConvergenceStreak
      && StreakHolds(Elites(start, draws, gen + 1), t.0, t.1)
      && (ConvergenceStreak <= gen + 1 ==> (Stagnated(Elites(start, draws, gen + 1)) <==> t.0 == ConvergenceStreak))
  {
    var elites := Elites(start, draws, gen);
    var best := BestAt(start, draws, gen);
    assert Elites(start, draws, gen + 1) == elites + [best];
    TrackKeepsStreak(elites, streak, previous, best);
    var t := Track(previous, streak, best);
    if ConvergenceStreak <= gen + 1 {
      StreakStagnation(elites + [best], t.0, t.1);
    }
  }

  /** A run that has gone gen generations without stagnating, with a counter
      below ten, has not stagnated at generation gen either. */
  lemma {:induction false} NotStagnatedExtends(start: seq<Individual>, draws: seq<seq<Draw>>, gen: nat, streak: nat,
                                              previous: Option<Individual>)
    requires |start| > 0 && AllValid(start) && Schedule(draws, |start|)
    requires gen < MaxGenerations && streak <= gen && streak < ConvergenceStreak
    requires StreakHolds(Elites(start, draws, gen), streak, previous)
    requires NotStagnatedBefore(start, draws, gen)
    ensures NotStagnatedBefore(start, draws, gen + 1)
  {
    forall m | ConvergenceStreak <= m < gen + 1
      ensures !Stagnated(Elites(start, draws, m))
    {
      if m == gen {
        StreakStagnation(Elites(start, draws, gen), streak, previous);
      }
    }
  }

  /** One generation of a run that started from start, stated over the
      populations and elites of the run: the loop either stops with the
      next population and trace, or goes on from them. */
  lemma {:induction false} EvolveStepFromStart(start: seq<Individual>, draws: seq<seq<Draw>>, gen: nat, streak: nat,
                            previous: Option<Individual>)
    requires |start| > 0 && AllValid(start) && Schedule(draws, |start|)
    requires gen < MaxGenerations
    ensures var t := Track(previous, streak, BestAt(start, draws, gen));
            var pop' := Populations(start, draws, gen + 1);
            var trace' := Scores(Elites(start, draws, gen + 1));
            Evolve(Populations(start, draws, gen), draws, gen, streak, previous, Scores(Elites(start, draws, gen))) ==
              if t.0 == ConvergenceStreak then Outcome(pop', trace', gen + 1, true)
              else Evolve(pop', draws, gen + 1, t.0, t.1, trace')
  {
    var pop := Populations(start, draws, gen);
    StepFacts(start, draws, gen, pop);
    TraceExtends(start, draws, gen);
    EvolveStep(pop, draws, gen, streak, previous, Scores(Elites(start, draws, gen)));
  }

  /** The loop from any state of a run that started from start ends in the
      reachable outcome, when the loop state at generation gen is the
      population the earlier generations built, the scores of their elites
      and an exact counter window below ten, and no earlier generation
      stagnated. */
  lemma {:induction false} EvolveFacts(start: seq<Individual>, draws: seq<seq<Draw>>,
                                       gen: nat, streak: nat, previous: Option<Individual>)
    requires |start| > 0 && AllValid(start) && Schedule(draws, |start|)
    requires gen <= MaxGenerations
    requires streak <= gen && streak < ConvergenceStreak
    requires StreakHolds(Elites(start, draws, gen), streak, previous)
    requires NotStagnatedBefore(start, draws, gen)
    ensures Reachable(start, draws, Evolve(Populations(start, draws, gen), draws, gen, streak, previous,
                                          Scores(Elites(start, draws, gen))))
    decreases MaxGenerations - gen
  {
    if gen == MaxGenerations {
      StreakStagnation(Elites(start, draws, gen), streak, previous);
      StoppedReachable(start, draws, gen, false);
    } else {
      ContinueReachable(start, draws, gen, streak, previous);
    }
  }

  /** The generation-gen case of EvolveFacts: stop on the tenth equal elite,
      or go on with the updated counter. */
  lemma {:induction false} ContinueReachable(start: seq<Individual>, draws: seq<seq<Draw>>,
                                             gen: nat, streak: nat, previous: Option<Individual>)
    requires |start| > 0 && AllValid(start) && Schedule(draws, |start|)
    requires gen < MaxGenerations
    requires streak <= gen && streak < ConvergenceStreak
    requires StreakHolds(Elites(start, draws, gen), streak, previous)
    requires NotStagnatedBefore(start, draws, gen)
    ensures Reachable(start, draws, Evolve(Populations(start, draws, gen), draws, gen, streak, previous,
                                          Scores(Elites(start, draws, gen))))
    decreases MaxGenerations - gen, 0
  {
    EvolveStepFromStart(start, draws, gen, streak, previous);
    StreakStep(start, draws, gen, streak, previous);
    NotStagnatedExtends(start, draws, gen, streak, previous);
    var t := Track(previous, streak, BestAt(start, draws, gen));
    if t.0 == ConvergenceStreak {
      StoppedReachable(start, draws, gen + 1, true);
    } else {
      EvolveFacts(start, draws, gen + 1, t.0, t.1);
    }
  }

  /** A loop that stops at generation n leaves the population and trace the
      first n generations built; this is the reachable outcome when n is the
      first stagnation, or 1000 without one. */
  lemma {:induction false} StoppedReachable(start: seq<Individual>, draws: seq<seq<Draw>>, n: nat, converged: bool)
    requires |start| > 0 && AllValid(start) && Schedule(draws, |start|)
    requires 1 <= n <= MaxGenerations
    requires NotStagnatedBefore(start, draws, n)
    requires converged <==> ConvergenceStreak <= n && Stagnated(Elites(start, draws, n))
    requires !converged ==> n == MaxGenerations
    ensures Reachable(start, draws, Outcome(Populations(start, draws, n), Scores(Elites(start, draws, n)), n, converged))
  {
  }

  /** A whole run, started with an empty trace and a zero counter, ends in
      the one reachable outcome: it stops at the first generation whose last
      ten elites share their genes, or after 1000 generations; it ran at
      least ten generations, its trace holds one score per generation, each
      that generation's elite's, and its population is the one the
      generations built. */
  lemma {:induction false} RunFacts(start: seq<Individual>, draws: seq<seq<Draw>>)
    requires |start| > 0 && AllValid(start) && Schedule(draws, |start|)
    ensures Reachable(start, draws, Evolve(start, draws, 0, 0, None, []))
    ensures var o := Evolve(start, draws, 0, 0, None, []);
            ConvergenceStreak <= o.generations <= MaxGenerations && |o.trace| == o.generations
  {
    EvolveFacts(start, draws, 0, 0, None);
  }

  /** One offspring: select both parents, cross them, and mutate the child
      in place, as a list the Python program appends to the new generation. */
  method Child(pop: seq<Individual>, d: Draw) returns (child: Individual)
    requires |pop| > 0 && AllValid(pop) && ValidDraw(d)
    ensures child == Offspring(pop, d)
  {
    var father := Select(pop);
    var mother := Select(pop);
    var crossed := Crossover(father, mother, d.cut);
    OffspringFromElite(pop, d);
    var genes := new int[|crossed|](i requires 0 <= i < |crossed| => crossed[i]);
    assert genes[..] == crossed;
    Mutate(genes, d.roll, d.gene, d.pos);
    child := genes[..];
  }

  /** The inner loop of a generation: one offspring per population slot. */
  method Breed(pop: seq<Individual>, ds: seq<Draw>) returns (next: seq<Individual>)
    requires |pop| > 0 && AllValid(pop)
    requires forall s :: 0 <= s < |ds| ==> ValidDraw(ds[s])
    ensures next == NextGeneration(pop, ds)
  {
    next := [];
    for s := 0 to |ds|
      invariant next == NextGeneration(pop, ds[..s])
    {
      var child := Child(pop, ds[s]);
      assert ds[..s + 1][..s] == ds[..s];
      next := next + [child];
    }
    assert ds[..|ds|] == ds;
  }

  /** The state the Python program keeps in its window object: the population,
      created once and carried over from one run to the next, and the
      per-generation score trace, cleared at the start of every run. */
  class Engine {
    var population: seq<Individual>
    var trace: seq<real>

    ghost predicate Valid()
      reads this
    {
      |population| == PopulationSize && AllValid(population)
    }

    /** The initial population of ten valid individuals and an empty trace. */
    constructor (initial: seq<Individual>)
      requires |initial| == PopulationSize && AllValid(initial)
      ensures Valid() && population == initial && trace == []
    {
      population := initial;
      trace := [];
    }

    /** One pass of the generation loop: breed the new population, pick its
        elite, update the stagnation counter and record the elite's score. */
    method Generation(draws: seq<seq<Draw>>, gen: nat, streak: nat, previous: Option<Individual>)
      returns (streak': nat, previous': Option<Individual>)
      requires Valid() && Schedule(draws, PopulationSize) && gen < MaxGenerations
      modifies this
      ensures Valid()
      ensures population == NextGeneration(old(population), draws[gen])
      ensures trace == old(trace) + [Score(Select(population))]
      ensures (streak', previous') == Track(previous, streak, Select(population))
      ensures Evolve(old(population), draws, gen, streak, previous, old(trace)) ==
                if streak' == ConvergenceStreak then Outcome(population, trace, gen + 1, true)
                else Evolve(population, draws, gen + 1, streak', previous', trace)
    {
      EvolveStep(population, draws, gen, streak, previous, trace);
      assert forall s :: 0 <= s < |draws[gen]| ==> ValidDraw(draws[gen][s]);
      var next := Breed(population, draws[gen]);
      var best := Select(next);
      assert ValidIndividual(next[BestIndex(next)]);
      streak', previous' := streak, previous;
      if previous.Some? && previous.value != [] && SameGenes(best, previous.value) {
        streak' := streak + 1;
      } else {
        streak' := 1;
        previous' := Some(best);
      }
      var score := ComputeFitness(best);
      population := next;
      trace := trace + [score];
    }

    /** One run of the genetic algorithm over the draws of the schedule. */
    method Run(draws: seq<seq<Draw>>)
      requires Valid() && Schedule(draws, PopulationSize)
      modifies this
      ensures Valid()
      ensures var o := Evolve(old(population), draws, 0, 0, None, []);
                population == o.population && trace == o.trace
    {
      var streak: nat := 0;
      var previous: Option<Individual> := None;
      trace := [];
      ghost var final := Evolve(population, draws, 0, 0, None, []);
      for gen := 0 to MaxGenerations
        invariant Valid()
        invariant Evolve(population, draws, gen, streak, previous, trace) == final
      {
        streak, previous := Generation(draws, gen, streak, previous);
        if streak == ConvergenceStreak {
          break;
        }
      }
    }
  }
}
