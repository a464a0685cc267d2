/** The genetic operators: elitist selection, one-point crossover with
    de-duplication, and best-effort mutation.  Every random draw of the
    Python program is a parameter whose range the `requires` clauses give. */
module Genetics {
  import opened Catalog
  import opened Fitness

  /** random.random() < 0.2 decides whether an offspring mutates. */
  const MutationRate: real := 0.2

  function Min(a: int, b: int): int
  {
    if a <= b then a else b
  }

  // ---------------------------------------------------------------------
  // Selection: max(population, key=fitness)
  // ---------------------------------------------------------------------

  /** Python's max scans left to right and replaces its candidate only on a
      strictly larger key; this is the index of the candidate it returns. */
  function BestIndex(pop: seq<Individual>): (k: nat)
    requires |pop| > 0
    requires forall i :: 0 <= i < |pop| ==> InRange(pop[i])
    ensures k < |pop|
  {
    if |pop| == 1 then 0
    else
      var k := BestIndex(pop[..|pop| - 1]);
      if Score(pop[k]) < Score(pop[|pop| - 1]) then |pop| - 1 else k
  }

  /** max(population, key=fitness) */
  function Select(pop: seq<Individual>): (best: Individual)
    requires |pop| > 0
    requires forall i :: 0 <= i < |pop| ==> InRange(pop[i])
    ensures InRange(best)
  {
    pop[BestIndex(pop)]
  }

  /** The scan ends on a maximal score, and every earlier individual scores
      strictly less: it is the first maximal one. */
  lemma {:induction false} BestIndexIsFirstMax(pop: seq<Individual>)
    requires |pop| > 0
    requires forall i :: 0 <= i < |pop| ==> InRange(pop[i])
    ensures forall j :: 0 <= j < |pop| ==> Score(pop[j]) <= Score(pop[BestIndex(pop)])
    ensures forall j :: 0 <= j < BestIndex(pop) ==> Score(pop[j]) < Score(pop[BestIndex(pop)])
  {
    if |pop| > 1 {
      var init := pop[..|pop| - 1];
      BestIndexIsFirstMax(init);
      assert forall j :: 0 <= j < |init| ==> init[j] == pop[j];
    }
  }

  /** The selected individual belongs to the population, no individual
      scores more, and it is the first with its score. */
  lemma {:induction false} SelectIsFirstMax(pop: seq<Individual>)
    requires |pop| > 0
    requires forall i :: 0 <= i < |pop| ==> InRange(pop[i])
    ensures Select(pop) in pop
    ensures forall j :: 0 <= j < |pop| ==> Score(pop[j]) <= Score(Select(pop))
    ensures exists k :: 0 <= k < |pop| && pop[k] == Select(pop) &&
                        forall j :: 0 <= j < k ==> Score(pop[j]) < Score(Select(pop))
  {
    BestIndexIsFirstMax(pop);
  }

  // ---------------------------------------------------------------------
  // Crossover: pai[:ponto] + [g for g in mae if g not in pai[:ponto]], cut to 3
  // ---------------------------------------------------------------------

  /** The genes of s that do not occur in p, in the order of s. */
  function Without(s: seq<int>, p: seq<int>): (r: seq<int>)
    ensures |r| <= |s|
  {
    if s == [] then []
    else (if s[0] in p then [] else [s[0]]) + Without(s[1..], p)
  }

  function Crossover(father: Individual, mother: Individual, cut: int): (child: Individual)
    requires 1 <= cut <= 2
    ensures |child| <= GenesPerIndividual
    ensures cut <= |father| ==> cut <= |child| && child[..cut] == father[..cut]
  {
    var prefix := father[..Min(cut, |father|)];
    var joined := prefix + Without(mother, prefix);
    joined[..Min(GenesPerIndividual, |joined|)]
  }

  /** The filter keeps only genes of s that are not in p. */
  lemma {:induction false} WithoutMembers(s: seq<int>, p: seq<int>)
    ensures forall g :: g in Without(s, p) ==> g in s && g !in p
  {
    if s != [] {
      WithoutMembers(s[1..], p);
    }
  }

  lemma {:induction false} WithoutDistinct(s: seq<int>, p: seq<int>)
    requires Distinct(s)
    ensures Distinct(Without(s, p))
  {
    if s != [] {
      WithoutDistinct(s[1..], p);
      WithoutMembers(s[1..], p);
      assert s[0] !in s[1..];
    }
  }

  /** Membership in p matters only for the genes of s. */
  lemma {:induction false} WithoutAgrees(s: seq<int>, p: seq<int>, q: seq<int>)
    requires forall i :: 0 <= i < |s| ==> (s[i] in p <==> s[i] in q)
    ensures Without(s, p) == Without(s, q)
  {
    if s != [] {
      WithoutAgrees(s[1..], p, q);
    }
  }

  /** Filtering a duplicate-free list against p drops at most |p| genes. */
  lemma {:induction false} WithoutLength(s: seq<int>, p: seq<int>)
    requires Distinct(s)
    ensures |Without(s, p)| >= |s| - |p|
  {
    if s != [] {
      var x, t := s[0], s[1..];
      assert Distinct(t);
      if x in p {
        var k :| 0 <= k < |p| && p[k] == x;
        var q := p[..k] + p[k + 1..];
        forall i | 0 <= i < |t|
          ensures t[i] in p <==> t[i] in q
        {
          var g := t[i];
          assert g != x;
          if g in p {
            var m :| 0 <= m < |p| && p[m] == g;
            if m < k { assert q[m] == g; } else { assert q[m - 1] == g; }
          }
        }
        WithoutAgrees(t, p, q);
        WithoutLength(t, q);
      } else {
        WithoutLength(t, p);
      }
    }
  }

  /** Appending genes that are new to a duplicate-free in-range prefix keeps
      it duplicate-free and in range. */
  lemma {:induction false} AppendFresh(prefix: seq<int>, rest: seq<int>, mother: seq<int>)
    requires InRange(prefix) && Distinct(prefix) && InRange(mother) && Distinct(rest)
    requires forall g :: g in rest ==> g in mother && g !in prefix
    ensures InRange(prefix + rest) && Distinct(prefix + rest)
  {
    var joined := prefix + rest;
    forall i, j | 0 <= i < j < |joined|
      ensures joined[i] != joined[j]
    {
      if j >= |prefix| {
        assert joined[j] == rest[j - |prefix|] && rest[j - |prefix|] in rest;
        if i >= |prefix| {
          assert joined[i] == rest[i - |prefix|];
        } else {
          assert joined[i] == prefix[i] && prefix[i] in prefix;
        }
      }
    }
    forall i | |prefix| <= i < |joined|
      ensures 0 <= joined[i] < CatalogSize
    {
      assert joined[i] == rest[i - |prefix|] && rest[i - |prefix|] in rest;
      var k :| 0 <= k < |mother| && mother[k] == joined[i];
    }
  }

  /** From two valid parents and a cut in {1, 2}, crossover yields exactly
      three distinct in-range genes: the father's first `cut` genes, then
      mother's genes that are not among them.  No repair step is needed. */
  lemma {:induction false} CrossoverValid(father: Individual, mother: Individual, cut: int)
    requires ValidIndividual(father) && ValidIndividual(mother)
    requires 1 <= cut <= 2
    ensures ValidIndividual(Crossover(father, mother, cut))
    ensures Crossover(father, mother, cut)[..cut] == father[..cut]
    ensures forall i :: cut <= i < GenesPerIndividual ==>
              Crossover(father, mother, cut)[i] in mother &&
              Crossover(father, mother, cut)[i] !in father[..cut]
  {
    var prefix := father[..cut];
    var rest := Without(mother, prefix);
    WithoutLength(mother, prefix);
    WithoutDistinct(mother, prefix);
    WithoutMembers(mother, prefix);
    AppendFresh(prefix, rest, mother);
    var joined := prefix + rest;
    var child := joined[..GenesPerIndividual];
    assert Crossover(father, mother, cut) == child;
    forall i | cut <= i < GenesPerIndividual
      ensures child[i] in mother && child[i] !in prefix
    {
      assert child[i] == rest[i - cut] && rest[i - cut] in rest;
    }
  }

  /** Both parents of an offspring are the same elite individual, and
      crossing a valid individual with itself gives it back. */
  lemma {:induction false} CrossoverSelf(ind: Individual, cut: int)
    requires ValidIndividual(ind)
    requires 1 <= cut <= 2
    ensures Crossover(ind, ind, cut) == ind
  {
    CrossoverValid(ind, ind, cut);
    var child := Crossover(ind, ind, cut);
    forall i | cut <= i < GenesPerIndividual
      ensures child[i] == ind[i]
    {
      // child[cut..] lists, in order, the genes of ind after its first cut
      var rest := Without(ind, ind[..cut]);
      WithoutSuffix(ind, cut);
      assert child[i] == rest[i - cut] && rest[i - cut] in rest;
    }
  }

  /** Filtering a duplicate-free list against its own prefix leaves the
      matching suffix. */
  lemma {:induction false} WithoutSuffix(s: seq<int>, cut: nat)
    requires Distinct(s) && cut <= |s|
    ensures Without(s, s[..cut]) == s[cut..]
  {
    WithoutSplit(s, cut, s[..cut]);
    WithoutNone(s[cut..], s[..cut]);
    WithoutAll(s[..cut], s[..cut]);
  }

  lemma {:induction false} WithoutSplit(s: seq<int>, cut: nat, p: seq<int>)
    requires cut <= |s|
    ensures Without(s, p) == Without(s[..cut], p) + Without(s[cut..], p)
  {
    assert s == s[..cut] + s[cut..];
    WithoutAppend(s[..cut], s[cut..], p);
  }

  /** Filtering distributes over concatenation. */
  lemma {:induction false} WithoutAppend(a: seq<int>, b: seq<int>, p: seq<int>)
    ensures Without(a + b, p) == Without(a, p) + Without(b, p)
  {
    if a != [] {
      assert (a + b)[1..] == a[1..] + b;
      WithoutAppend(a[1..], b, p);
    } else {
      assert a + b == b;
    }
  }

  lemma {:induction false} WithoutNone(s: seq<int>, p: seq<int>)
    requires forall i :: 0 <= i < |s| ==> s[i] !in p
    ensures Without(s, p) == s
  {
    if s != [] {
      WithoutNone(s[1..], p);
    }
  }

  lemma {:induction false} WithoutAll(s: seq<int>, p: seq<int>)
    requires forall i :: 0 <= i < |s| ==> s[i] in p
    ensures Without(s, p) == []
  {
    if s != [] {
      WithoutAll(s[1..], p);
    }
  }

  // ---------------------------------------------------------------------
  // Mutation: with probability 0.2, individuo[pos] = novo unless novo is present
  // ---------------------------------------------------------------------

  /** The individual after mutation, as a value. */
  function Mutated(ind: Individual, roll: real, gene: int, pos: int): (r: Individual)
    requires roll < MutationRate && gene !in ind ==> 0 <= pos < |ind|
    ensures |r| == |ind|
  {
    if roll < MutationRate && gene !in ind then ind[pos := gene] else ind
  }

  /** The in-place mutation of the Python program: assigns one slot of the list. */
  method Mutate(ind: array<int>, roll: real, gene: int, pos: int)
    requires roll < MutationRate && gene !in ind[..] ==> 0 <= pos < ind.Length
    modifies ind
    ensures ind[..] == Mutated(old(ind[..]), roll, gene, pos)
  {
    if roll < MutationRate {
      if gene !in ind[..] {
        ind[pos] := gene;
      }
    }
  }

  /** Mutation leaves the individual alone when the draw says no or the new
      gene is already present; otherwise exactly the drawn position takes
      the new gene.  A valid individual stays valid. */
  lemma {:induction false} MutationEffect(ind: Individual, roll: real, gene: int, pos: int)
    requires ValidIndividual(ind)
    requires 0.0 <= roll < 1.0 && 0 <= gene < CatalogSize && 0 <= pos < GenesPerIndividual
    ensures MutationRate <= roll || gene in ind ==> Mutated(ind, roll, gene, pos) == ind
    ensures roll < MutationRate && gene !in ind ==>
              Mutated(ind, roll, gene, pos)[pos] == gene &&
              forall i :: 0 <= i < GenesPerIndividual && i != pos ==> Mutated(ind, roll, gene, pos)[i] == ind[i]
    ensures ValidIndividual(Mutated(ind, roll, gene, pos))
  {
    var r := Mutated(ind, roll, gene, pos);
    if roll < MutationRate && gene !in ind {
      forall i, j | 0 <= i < j < |r|
        ensures r[i] != r[j]
      {
        if i == pos { assert r[j] == ind[j]; }
        else if j == pos { assert r[i] == ind[i]; }
      }
    }
  }
}
