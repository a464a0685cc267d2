/** The conventional baseline the search is compared with: score a batch of
    random individuals, rank them by score, report the best score and, for
    the three best, the filament cost, the filament mass and the average
    price per kilogram.  The random batch is a parameter. */
module Baseline {
  import opened Catalog
  import opened Fitness

  /** Number of random individuals the baseline scores. */
  const SampleCount: nat := 100

  /** Number of ranked individuals whose summary is reported. */
  const Reported: nat := 3

  /** An individual with its fitness, as the Python program's (ind, fitness) pair. */
  datatype Scored = Scored(individual: Individual, score: real)

  /** What the report states about one individual: filament cost (without
      the time cost), grams of filament and average price per kilogram. */
  datatype Summary = Summary(cost: real, mass: nat, averagePrice: real)

  /** Each individual paired with its score, in batch order. */
  function Evaluated(samples: seq<Individual>): (r: seq<Scored>)
    requires AllValid(samples)
    ensures |r| == |samples|
    ensures forall k :: 0 <= k < |samples| ==> r[k] == Scored(samples[k], Score(samples[k]))
  {
    if samples == [] then []
    else Evaluated(samples[..|samples| - 1]) + [Scored(samples[|samples| - 1], Score(samples[|samples| - 1]))]
  }

  /** Non-increasing by score: the order of sort(key=lambda x: -x[1]). */
  predicate Descending(s: seq<Scored>)
  {
    forall p, q :: 0 <= p < q < |s| ==> s[p].score >= s[q].score
  }

  /** Grams of filament of each catalog model, in catalog order, copied out
      of the catalog records (see ItemGramsFormula). */
  const FilamentGrams: seq<nat> := [
    45, 80, 35, 50, 70, 110, 120, 20, 150,
    90, 25, 38, 100, 130, 180, 60, 45
  ]

  /** Grams of filament of one catalog item. */
  function ItemGrams(i: int): (g: nat)
    requires 0 <= i < CatalogSize
    ensures g > 0
  {
    FilamentGrams[i]
  }

  /** Each table entry is the filament mass of its model. */
  lemma {:induction false} ItemGramsFormula(i: int)
    requires 0 <= i < CatalogSize
    ensures ItemGrams(i) == Models[i].filament
  {
  }

  /** Grams of filament summed over the genes. */
  function Mass(ind: Individual): (m: nat)
    requires InRange(ind)
    ensures m == 0 <==> ind == []
  {
    if ind == [] then 0
    else Mass(ind[..|ind| - 1]) + ItemGrams(ind[|ind| - 1])
  }

  /** The average price per kilogram: cost over mass times 1000, or 0 when
      no filament is used. */
  function AveragePrice(cost: real, mass: nat): (price: real)
    ensures mass > 0 ==> price * (mass as real) == 1000.0 * cost
    ensures mass == 0 ==> price == 0.0
  {
    if mass > 0 then (cost / (mass as real)) * 1000.0 else 0.0
  }

  /** What the report states about one individual. */
  function SummaryOf(ind: Individual): (s: Summary)
    requires InRange(ind)
    ensures s.mass == 0 <==> ind == []
    ensures s.mass > 0 ==> s.averagePrice * (s.mass as real) == 1000.0 * s.cost
    ensures s.mass == 0 ==> s.cost == 0.0 && s.averagePrice == 0.0
  {
    Summary(FilamentCost(ind), Mass(ind), AveragePrice(FilamentCost(ind), Mass(ind)))
  }

  /** The report loop for one individual: sum filament cost and mass gene
      by gene, then derive the average price per kilogram. */
  method Summarize(ind: Individual) returns (s: Summary)
    requires InRange(ind)
    ensures s == SummaryOf(ind)
  {
    var cost := 0.0;
    var mass := 0;
    for k := 0 to |ind|
      invariant cost == FilamentCost(ind[..k])
      invariant mass == Mass(ind[..k])
    {
      var model := Models[ind[k]];
      var pricePerGram := (model.pricePerKg as real) / 1000.0;
      ItemFilamentCostFormula(ind[k]);
      ItemGramsFormula(ind[k]);
      cost := cost + (model.filament as real) * pricePerGram;
      mass := mass + model.filament;
      assert ind[..k + 1][..k] == ind[..k];
    }
    assert ind[..|ind|] == ind;
    var average := if mass > 0 then (cost / (mass as real)) * 1000.0 else 0.0;
    s := Summary(cost, mass, average);
  }

  /** One catalog item's filament cost, in thousandths, lies between 110 and
      180 times its mass, the cheapest and dearest price per kilogram. */
  lemma {:induction false} ItemPriceBounds(i: int)
    requires 0 <= i < CatalogSize
    ensures 110.0 * (ItemGrams(i) as real) <= 1000.0 * ItemFilamentCost(i) <= 180.0 * (ItemGrams(i) as real)
    ensures ItemGrams(i) > 0
  {
  }

  /** Summed over genes, the filament cost stays between the cheapest and
      dearest price per kilogram applied to the whole mass. */
  lemma {:induction false} CostWithinPrices(ind: Individual)
    requires InRange(ind)
    ensures 110.0 * (Mass(ind) as real) <= 1000.0 * FilamentCost(ind) <= 180.0 * (Mass(ind) as real)
    ensures ind != [] ==> Mass(ind) > 0
  {
    if ind != [] {
      CostWithinPrices(ind[..|ind| - 1]);
      ItemPriceBounds(ind[|ind| - 1]);
    }
  }

  /** A quotient by a positive mass keeps the bounds the dividend has in
      multiples of that mass. */
  lemma {:induction false} QuotientBounds(x: real, m: real, lo: real, hi: real)
    requires m > 0.0 && lo * m <= x <= hi * m
    ensures lo <= x / m <= hi
  {
    var q := x / m;
    assert q * m == x;
  }

  /** A mass and a cost within the price range per kilogram give an average
      price in that range. */
  lemma {:induction false} AveragePriceWithin(cost: real, mass: nat)
    requires mass > 0
    requires 110.0 * (mass as real) <= 1000.0 * cost <= 180.0 * (mass as real)
    ensures 110.0 <= AveragePrice(cost, mass) <= 180.0
  {
    var m := mass as real;
    var q := cost / m;
    assert q * m == cost;
    assert (q * 1000.0) * m == 1000.0 * cost;
    QuotientBounds(1000.0 * cost, m, 110.0, 180.0);
    assert (1000.0 * cost) / m == q * 1000.0;
  }

  /** For any non-empty individual the mass is positive and the reported
      average price per kilogram lies between the catalog's cheapest (110)
      and dearest (180) filament; only the empty individual reports 0. */
  lemma {:induction false} AveragePriceBounds(ind: Individual)
    requires InRange(ind)
    ensures ind != [] ==> SummaryOf(ind).mass > 0 && 110.0 <= SummaryOf(ind).averagePrice <= 180.0
    ensures ind == [] ==> SummaryOf(ind) == Summary(0.0, 0, 0.0)
  {
    CostWithinPrices(ind);
    if ind != [] {
      AveragePriceWithin(FilamentCost(ind), Mass(ind));
    }
  }

  /** Exchanges two neighbouring entries. */
  method SwapDown(a: array<Scored>, j: int)
    requires 0 < j < a.Length
    modifies a
    ensures a[..] == old(a[..])[j - 1 := old(a[j])][j := old(a[j - 1])]
    ensures multiset(a[..]) == multiset(old(a[..]))
  {
    a[j - 1], a[j] := a[j], a[j - 1];
  }

  /** Stable insertion sort by descending score, in place: each element moves
      left past strictly smaller scores only, as Python's stable sort keeps
      equal keys in their original order. */
  method SortByScore(a: array<Scored>)
    modifies a
    ensures Descending(a[..])
    ensures multiset(a[..]) == multiset(old(a[..]))
  {
    for i := 0 to a.Length
      invariant forall p, q :: 0 <= p < q < i ==> a[p].score >= a[q].score
      invariant multiset(a[..]) == multiset(old(a[..]))
    {
      var j := i;
      while j > 0 && a[j - 1].score < a[j].score
        invariant 0 <= j <= i
        invariant forall p, q :: 0 <= p < q <= i && p != j && q != j ==> a[p].score >= a[q].score
        invariant forall q :: j < q <= i ==> a[j].score > a[q].score
        invariant multiset(a[..]) == multiset(old(a[..]))
      {
        SwapDown(a, j);
        j := j - 1;
      }
    }
  }

  /** [(ind, fitness(ind)) for ind in samples], into a fresh array. */
  method EvaluateAll(samples: seq<Individual>) returns (a: array<Scored>)
    requires AllValid(samples)
    ensures fresh(a) && a[..] == Evaluated(samples)
  {
    a := new Scored[|samples|];
    for k := 0 to |samples|
      invariant forall j :: 0 <= j < k ==> a[j] == Scored(samples[j], Score(samples[j]))
    {
      var f := ComputeFitness(samples[k]);
      a[k] := Scored(samples[k], f);
    }
  }

  /** A descending permutation of a list of scored entries has the same
      length, holds only entries of the list, and starts with an entry whose
      score no entry of the list exceeds. */
  lemma {:induction false} RankedFacts(ev: seq<Scored>, ranked: seq<Scored>)
    requires |ev| > 0 && multiset(ranked) == multiset(ev) && Descending(ranked)
    ensures |ranked| == |ev|
    ensures forall t :: 0 <= t < |ranked| ==> ranked[t] in ev
    ensures forall k :: 0 <= k < |ev| ==> ev[k].score <= ranked[0].score
    ensures ranked[0] in ev
  {
    assert |ranked| == |multiset(ranked)| == |multiset(ev)| == |ev|;
    forall t | 0 <= t < |ranked|
      ensures ranked[t] in ev
    {
      assert ranked[t] in multiset(ev);
    }
    forall k | 0 <= k < |ev|
      ensures ev[k].score <= ranked[0].score
    {
      assert ev[k] in multiset(ranked);
    }
  }

  /** An evaluated entry pairs a sample with its own score. */
  lemma {:induction false} EvaluatedMember(samples: seq<Individual>, x: Scored)
    requires AllValid(samples) && x in Evaluated(samples)
    ensures exists k :: 0 <= k < |samples| && samples[k] == x.individual
    ensures ValidIndividual(x.individual) && x.score == Score(x.individual)
  {
    var ev := Evaluated(samples);
    var k :| 0 <= k < |ev| && ev[k] == x;
    assert samples[k] == x.individual;
  }

  /** The summaries of the first three ranked individuals, in rank order. */
  method ReportTop(ranked: seq<Scored>) returns (top: seq<Summary>)
    requires |ranked| >= Reported
    requires forall t :: 0 <= t < |ranked| ==> InRange(ranked[t].individual)
    ensures |top| == Reported
    ensures forall t :: 0 <= t < Reported ==> top[t] == SummaryOf(ranked[t].individual)
  {
    top := [];
    for t := 0 to Reported
      invariant |top| == t
      invariant forall u :: 0 <= u < t ==> top[u] == SummaryOf(ranked[u].individual)
    {
      var s := Summarize(ranked[t].individual);
      top := top + [s];
    }
  }

  /** The baseline: score the batch, rank it by descending score, take the
      best score, and summarize the three best individuals. */
  method Compare(samples: seq<Individual>) returns (ranked: seq<Scored>, best: real, top: seq<Summary>)
    requires |samples| == SampleCount && AllValid(samples)
    ensures |ranked| == SampleCount && Descending(ranked)
    ensures multiset(ranked) == multiset(Evaluated(samples))
    ensures best == ranked[0].score
    ensures forall k :: 0 <= k < |samples| ==> Score(samples[k]) <= best
    ensures exists k :: 0 <= k < |samples| && Score(samples[k]) == best
    ensures |top| == Reported
    ensures forall t :: 0 <= t < Reported ==>
              InRange(ranked[t].individual) && top[t] == SummaryOf(ranked[t].individual)
  {
    var a := EvaluateAll(samples);
    ghost var ev := a[..];
    SortByScore(a);
    ranked := a[..];
    RankedFacts(ev, ranked);
    forall t | 0 <= t < |ranked|
      ensures InRange(ranked[t].individual)
    {
      EvaluatedMember(samples, ranked[t]);
    }
    EvaluatedMember(samples, ranked[0]);
    best := ranked[0].score;
    top := ReportTop(ranked);
  }
}
