/**
  The probability of one fully specified world: a gene count and a trait
  value for every person at once. Each person contributes a gene term (the
  prior for founders, a Mendelian term built from the parents' transmission
  probabilities otherwise) times the chance of their trait value given
  their gene count; the world's probability is the product over people.
 */
module Joint {
  import opened Wrappers
  import opened Probs
  import opened Population

  /** A candidate world: who has one copy, who has two (everyone else has none),
      and who shows the trait. */
  datatype World = World(one: set<string>, two: set<string>, haveTrait: set<string>)

  /** Gene count a world gives a name: two-copy membership wins, then one-copy, else none. */
  function GenesOf(name: string, one: set<string>, two: set<string>): GeneCount
  {
    if name in two then Two
    else if name in one then One
    else Zero
  }

  /** When the two sets are disjoint the classification is the partition itself:
      each name lands in exactly the bucket of the set that holds it. */
  lemma GenesOfPartition(name: string, one: set<string>, two: set<string>)
    requires one !! two
    ensures GenesOf(name, one, two) == Two <==> name in two
    ensures GenesOf(name, one, two) == One <==> name in one
    ensures GenesOf(name, one, two) == Zero <==> name !in one && name !in two
  {
  }

  /** Gene count of a listed parent. A parent that is not listed is a name in no set,
      so it counts as carrying no copy. */
  function ParentGenes(parent: Option<string>, w: World): (g: GeneCount)
    ensures parent.None? ==> g == Zero
    ensures parent.Some? && parent.value !in w.one + w.two ==> g == Zero
  {
    match parent
    case None => Zero
    case Some(n) => GenesOf(n, w.one, w.two)
  }

  /** Probability that a parent with `g` copies passes the gene on, mutation included. */
  function Transmit(g: GeneCount): (r: real)
    ensures 0.0 < r < 1.0
  {
    match g
    case Two => 1.0 - Mutation
    case One => 0.5
    case Zero => Mutation
  }

  /** A parent with more copies is more likely to pass one on. */
  lemma TransmitIncreasing()
    ensures Transmit(Zero) < Transmit(One) < Transmit(Two)
  {
  }

  /** Probability that a child has `g` copies when the mother passes a copy with
      probability `tm` and the father with probability `tf`, independently. */
  function ChildGenes(tm: real, tf: real, g: GeneCount): real
  {
    match g
    case Two => tm * tf
    case One => tm * (1.0 - tf) + (1.0 - tm) * tf
    case Zero => (1.0 - tm) * (1.0 - tf)
  }

  /** With the parents' transmission probabilities drawn from the table, each child
      term is strictly between 0 and 1. */
  lemma ChildGenesBounds(gm: GeneCount, gf: GeneCount, g: GeneCount)
    ensures 0.0 < ChildGenes(Transmit(gm), Transmit(gf), g) < 1.0
  {
  }

  /** The child's three gene terms form a distribution, whatever the parents pass on. */
  lemma ChildGenesSumsToOne(tm: real, tf: real)
    ensures ChildGenes(tm, tf, Two) + ChildGenes(tm, tf, One) + ChildGenes(tm, tf, Zero) == 1.0
  {
  }

  /** Swapping mother and father changes nothing. */
  lemma ChildGenesSymmetric(tm: real, tf: real, g: GeneCount)
    ensures ChildGenes(tm, tf, g) == ChildGenes(tf, tm, g)
  {
  }

  /** Two parents without the gene give a one-copy child only through exactly one mutation. */
  lemma BothParentsZeroOneCopy()
    ensures ChildGenes(Transmit(Zero), Transmit(Zero), One) == 2.0 * Mutation * (1.0 - Mutation) == 0.0198
  {
  }

  /** The gene term of one person in a world. Only a person with neither parent listed
      uses the prior; anyone else uses the inheritance term. */
  function GeneFactor(p: Person, w: World): (r: real)
    ensures 0.0 < r < 1.0
  {
    var g := GenesOf(p.name, w.one, w.two);
    if p.IsFounder() then Prior(g)
    else
      var tm := Transmit(ParentGenes(p.mother, w));
      var tf := Transmit(ParentGenes(p.father, w));
      ChildGenesBounds(ParentGenes(p.mother, w), ParentGenes(p.father, w), g);
      ChildGenes(tm, tf, g)
  }

  lemma MulBelowOne(a: real, b: real)
    requires 0.0 < a < 1.0 && 0.0 < b <= 1.0
    ensures 0.0 < a * b < 1.0
  {
    assert a * b <= a * 1.0;
  }

  /** One person's whole contribution: gene term times trait term. */
  function Factor(p: Person, w: World): (r: real)
    ensures 0.0 < r < 1.0
  {
    var g := GenesOf(p.name, w.one, w.two);
    MulBelowOne(GeneFactor(p, w), TraitProb(g, p.name in w.haveTrait));
    GeneFactor(p, w) * TraitProb(g, p.name in w.haveTrait)
  }

  /** Probability of the world: the product of every person's factor. */
  function JointProbability(people: People, w: World): real
    decreases |people|
  {
    if people == [] then 1.0
    else Factor(people[0], w) * JointProbability(people[1..], w)
  }

  /** A world's probability is a probability, and never zero: every table entry is
      strictly between 0 and 1. It is below one as soon as there is anyone. */
  lemma {:induction false} JointProbabilityBounds(people: People, w: World)
    ensures 0.0 < JointProbability(people, w) <= 1.0
    ensures people != [] ==> JointProbability(people, w) < 1.0
    decreases |people|
  {
    if people != [] {
      JointProbabilityBounds(people[1..], w);
      MulBelowOne(Factor(people[0], w), JointProbability(people[1..], w));
    }
  }

  /** A lone founder's world has probability prior times trait term. */
  lemma LoneFounder(p: Person, w: World)
    requires p.IsFounder()
    ensures JointProbability([p], w)
         == Prior(GenesOf(p.name, w.one, w.two)) * TraitProb(GenesOf(p.name, w.one, w.two), p.name in w.haveTrait)
  {
    assert [p][1..] == [];
  }
}
