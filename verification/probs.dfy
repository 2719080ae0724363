/**
  The fixed probability tables of the heredity model: the unconditional
  gene-count prior for people without listed parents, the probability of
  showing the trait given a gene count, and the mutation rate. Values are
  exact reals rather than floating point.
 */
module Probs {

  /** Number of copies of the gene a person carries. */
  datatype GeneCount = Zero | One | Two

  /** The mutation rate: the chance that a passed copy flips. */
  const Mutation: real := 0.01

  /** Unconditional probability of each gene count. */
  function Prior(g: GeneCount): (r: real)
    ensures 0.0 < r < 1.0
  {
    match g
    case Two => 0.01
    case One => 0.03
    case Zero => 0.96
  }

  /** Probability that a person with `g` copies does (`shown`) or does not show the trait.
      Both columns are written out, as in the source table. */
  function TraitProb(g: GeneCount, shown: bool): (r: real)
    ensures 0.0 < r < 1.0
  {
    match g
    case Two => if shown then 0.65 else 0.35
    case One => if shown then 0.56 else 0.44
    case Zero => if shown then 0.01 else 0.99
  }

  /** The three priors form a probability distribution. */
  lemma PriorSumsToOne()
    ensures Prior(Two) + Prior(One) + Prior(Zero) == 1.0
  {
  }

  /** For every gene count the trait table's two columns add up to one. */
  lemma TraitProbSumsToOne(g: GeneCount)
    ensures TraitProb(g, true) + TraitProb(g, false) == 1.0
  {
  }

  /** More copies of the gene make the trait more likely. */
  lemma TraitProbIncreasing()
    ensures TraitProb(Zero, true) < TraitProb(One, true) < TraitProb(Two, true)
  {
  }

  /** So fewer copies make not showing the trait more likely: the complement column
      orders the other way. */
  lemma TraitProbNotShownDecreasing()
    ensures TraitProb(Two, false) < TraitProb(One, false) < TraitProb(Zero, false)
  {
    TraitProbIncreasing();
    TraitProbSumsToOne(Two);
    TraitProbSumsToOne(One);
    TraitProbSumsToOne(Zero);
  }
}
