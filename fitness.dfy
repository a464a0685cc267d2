/** The fitness evaluator: material cost plus a time cost of 2 per hour,
    mapped linearly onto a score and clamped to [1, 100].  Floating-point
    arithmetic of the Python program is modelled with exact reals. */
module Fitness {
  import opened Catalog

  /** Cheapest and dearest single catalog item (filament plus time). */
  const MinItemCost: real := 5.475
  const MaxItemCost: real := 50.4

  /** Filament cost of each catalog model, in catalog order: grams of
      filament times the price per kilogram over 1000.  The values are
      worked out once here and checked against the catalog by
      ItemFilamentCostFormula, which keeps the product of two catalog fields
      out of every proof that only compares scores. */
  const FilamentCosts: seq<real> := [
    5.4, 10.0, 5.25, 5.5, 9.59, 14.85, 14.4, 3.6, 20.25,
    11.43, 3.075, 4.56, 13.5, 15.6, 32.4, 7.92, 5.4
  ]

  /** Print time of each catalog model, in catalog order, copied out of
      the catalog records for the same reason (see ItemHoursFormula). */
  const PrintTimes: seq<real> := [
    2.0, 4.0, 3.0, 3.5, 3.5, 5.5, 6.0, 1.5, 7.0,
    4.0, 1.2, 2.5, 5.0, 6.5, 9.0, 3.0, 2.8
  ]

  /** Filament cost of one catalog item. */
  function ItemFilamentCost(i: int): real
    requires 0 <= i < CatalogSize
  {
    FilamentCosts[i]
  }

  /** Print hours of one catalog item. */
  function ItemHours(i: int): real
    requires 0 <= i < CatalogSize
  {
    PrintTimes[i]
  }

  /** Each table entry is grams times price per gram of its model. */
  lemma {:induction false} ItemFilamentCostFormula(i: int)
    requires 0 <= i < CatalogSize
    ensures ItemFilamentCost(i) == (Models[i].filament as real) * ((Models[i].pricePerKg as real) / 1000.0)
  {
  }

  /** Each table entry is the print time of its model. */
  lemma {:induction false} ItemHoursFormula(i: int)
    requires 0 <= i < CatalogSize
    ensures ItemHours(i) == Models[i].hours
  {
  }

  /** Filament cost summed over the genes, in list order. */
  function FilamentCost(ind: Individual): real
    requires InRange(ind)
  {
    if ind == [] then 0.0
    else FilamentCost(ind[..|ind| - 1]) + ItemFilamentCost(ind[|ind| - 1])
  }

  /** Print hours summed over the genes, in list order. */
  function PrintHours(ind: Individual): real
    requires InRange(ind)
  {
    if ind == [] then 0.0
    else PrintHours(ind[..|ind| - 1]) + ItemHours(ind[|ind| - 1])
  }

  /** Filament cost plus 2 currency units per print hour. */
  function TotalCost(ind: Individual): real
    requires InRange(ind)
  {
    FilamentCost(ind) + PrintHours(ind) * 2.0
  }

  /** The linear map of a cost onto a score, before clamping: the cost range
      [15, 500] (485 wide) maps onto [100, 1]. */
  function Normalized(cost: real): real
  {
    100.0 - ((cost - 15.0) / 485.0) * 99.0
  }

  /** max(1, min(100, p)) */
  function Clamp(p: real): (r: real)
    ensures 1.0 <= r <= 100.0
    ensures 1.0 <= p <= 100.0 ==> r == p
  {
    var m := if 100.0 <= p then 100.0 else p;
    if m <= 1.0 then 1.0 else m
  }

  /** The fitness loop as a function: having summed the filament cost and
      the hours of the first k genes, sum the rest, then normalize and
      clamp.  Only the genes not yet visited are unfolded, one at a time. */
  function ScoreFrom(ind: Individual, k: nat, filament: real, hours: real): (s: real)
    requires InRange(ind) && k <= |ind|
    ensures 1.0 <= s <= 100.0
    decreases |ind| - k
  {
    if k == |ind| then Clamp(Normalized(filament + hours * 2.0))
    else ScoreFrom(ind, k + 1, filament + ItemFilamentCost(ind[k]), hours + ItemHours(ind[k]))
  }

  /** The fitness of an individual: higher means cheaper to print. */
  function Score(ind: Individual): (s: real)
    requires InRange(ind)
    ensures 1.0 <= s <= 100.0
  {
    ScoreFrom(ind, 0, 0.0, 0.0)
  }

  /** Resuming the loop after k genes with their exact sums gives the
      clamped normalization of the whole individual's total cost. */
  lemma {:induction false} ScoreFromPrefix(ind: Individual, k: nat)
    requires InRange(ind) && k <= |ind|
    ensures ScoreFrom(ind, k, FilamentCost(ind[..k]), PrintHours(ind[..k])) == Clamp(Normalized(TotalCost(ind)))
    decreases |ind| - k
  {
    if k == |ind| {
      assert ind[..k] == ind;
    } else {
      assert ind[..k + 1][..k] == ind[..k];
      ScoreFromPrefix(ind, k + 1);
    }
  }

  /** The score is the total cost mapped linearly onto [1, 100] and clamped. */
  lemma {:induction false} ScoreFormula(ind: Individual)
    requires InRange(ind)
    ensures Score(ind) == Clamp(Normalized(TotalCost(ind)))
  {
    assert ind[..0] == [];
    ScoreFromPrefix(ind, 0);
  }

  /** The loop of the Python program: accumulate filament cost and print time,
      then normalize and clamp. */
  method ComputeFitness(ind: Individual) returns (score: real)
    requires InRange(ind)
    ensures score == Score(ind)
  {
    var filamentCost := 0.0;
    var hours := 0.0;
    for k := 0 to |ind|
      invariant filamentCost == FilamentCost(ind[..k])
      invariant hours == PrintHours(ind[..k])
    {
      var model := Models[ind[k]];
      var pricePerGram := (model.pricePerKg as real) / 1000.0;
      ItemFilamentCostFormula(ind[k]);
      ItemHoursFormula(ind[k]);
      filamentCost := filamentCost + (model.filament as real) * pricePerGram;
      hours := hours + model.hours;
      assert ind[..k + 1][..k] == ind[..k];
    }
    assert ind[..|ind|] == ind;
    var totalCost := filamentCost + hours * 2.0;
    var p := 100.0 - ((totalCost - 15.0) / (500.0 - 15.0)) * 99.0;
    var m := if 100.0 <= p then 100.0 else p;
    score := if m <= 1.0 then 1.0 else m;
    ScoreFormula(ind);
  }

  /** A larger total cost never gives a larger score. */
  lemma {:induction false} ScoreAntitone(a: Individual, b: Individual)
    requires InRange(a) && InRange(b)
    requires TotalCost(a) <= TotalCost(b)
    ensures Score(b) <= Score(a)
  {
    ScoreFormula(a);
    ScoreFormula(b);
    assert Normalized(TotalCost(b)) <= Normalized(TotalCost(a));
  }

  /** Each catalog item costs between MinItemCost and MaxItemCost. */
  lemma {:induction false} ItemCostBounds(i: int)
    requires 0 <= i < CatalogSize
    ensures MinItemCost <= ItemFilamentCost(i) + ItemHours(i) * 2.0 <= MaxItemCost
  {
  }

  /** The total cost grows by one item's cost per gene. */
  lemma {:induction false} TotalCostBounds(ind: Individual)
    requires InRange(ind)
    ensures MinItemCost * (|ind| as real) <= TotalCost(ind) <= MaxItemCost * (|ind| as real)
  {
    if ind != [] {
      var init := ind[..|ind| - 1];
      TotalCostBounds(init);
      ItemCostBounds(ind[|ind| - 1]);
    }
  }

  /** For an individual of three genes the clamp never acts: its cost lies
      strictly between the normalization bounds, so its score is exactly
      the linear formula and lies strictly inside (1, 100). */
  lemma {:induction false} ScoreIsLinearForValid(ind: Individual)
    requires |ind| == GenesPerIndividual && InRange(ind)
    ensures 15.0 < TotalCost(ind) < 500.0
    ensures Score(ind) == Normalized(TotalCost(ind))
    ensures 1.0 < Score(ind) < 100.0
  {
    TotalCostBounds(ind);
    ScoreFormula(ind);
  }

  /** The three first catalog items: filament 20.65, time cost 18, total
      38.65, score 100 - (23.65 / 485) * 99, which is about 95.17. */
  lemma {:induction false} FirstThreeItems()
    ensures FilamentCost([0, 1, 2]) == 20.65
    ensures TotalCost([0, 1, 2]) == 38.65
    ensures Score([0, 1, 2]) == 100.0 - (23.65 / 485.0) * 99.0
    ensures 95.17 < Score([0, 1, 2]) < 95.18
  {
    assert [0, 1, 2][..2] == [0, 1];
    assert [0, 1][..1] == [0];
    assert [0][..0] == [];
    ScoreFormula([0, 1, 2]);
  }
}
