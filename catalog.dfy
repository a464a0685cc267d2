/** The fixed catalog of 3D-printable models and the shape of an individual
    of the genetic search: a list of catalog indices. */
module Catalog {

  /** One catalog record: grams of filament, print time in hours and the
      filament price per kilogram. */
  datatype Model = Model(name: string, filament: nat, hours: real, color: string, pricePerKg: nat)

  /** An individual is a list of catalog indices (a Python list of ints). */
  type Individual = seq<int>

  /** Number of genes of every individual the search produces. */
  const GenesPerIndividual: nat := 3

  /** Number of models in the catalog (len(modelos)). */
  const CatalogSize: nat := 17

  const Models: seq<Model> := [
    Model("Suporte de celular", 45, 2.0, "Preto", 120),
    Model("Vasinho decorativo", 80, 4.0, "Branco", 125),
    Model("Miniatura de dragão", 35, 3.0, "Dourado", 150),
    Model("Organizador de cabos", 50, 3.5, "Cinza", 110),
    Model("Porta-lápis", 70, 3.5, "Verde", 137),
    Model("Suporte para fone", 110, 5.5, "Laranja", 135),
    Model("Mini vaso autoirrigável", 120, 6.0, "Verde musgo", 120),
    Model("Quebra-cabeça 3D", 20, 1.5, "Multicolorido", 180),
    Model("Estatueta decorativa", 150, 7.0, "Bronze", 135),
    Model("Caixa organizadora pequena", 90, 4.0, "Branco gelo", 127),
    Model("Suporte de parede para escovas", 25, 1.2, "Cinza claro", 123),
    Model("Gatilho adaptador para spray", 38, 2.5, "Preto fosco", 120),
    Model("Mini suporte para notebook", 100, 5.0, "Verde oliva", 135),
    Model("Dispenser para álcool gel", 130, 6.5, "Transparente", 120),
    Model("Torre de aprendizado infantil", 180, 9.0, "Madeira natural", 180),
    Model("Conjunto de ganchos multifuncionais", 60, 3.0, "Amarelo", 132),
    Model("Suporte de tomada rotativo", 45, 2.8, "Preto", 120)
  ]

  /** Every gene indexes the catalog. */
  predicate InRange(ind: Individual)
  {
    forall k :: 0 <= k < |ind| ==> 0 <= ind[k] < CatalogSize
  }

  /** No catalog index occurs twice. */
  predicate Distinct(s: seq<int>)
  {
    forall i, j :: 0 <= i < j < |s| ==> s[i] != s[j]
  }

  /** Exactly three distinct in-range catalog indices, as random.sample
      over the catalog indices draws them. */
  predicate ValidIndividual(ind: Individual)
  {
    |ind| == GenesPerIndividual && InRange(ind) && Distinct(ind)
  }

  predicate AllValid(pop: seq<Individual>)
  {
    forall k :: 0 <= k < |pop| ==> ValidIndividual(pop[k])
  }
}
