/**
  Worked example: the whole inference run on a population of one person who
  has no listed parents and whose trait is known, either way.
 */
module Scenarios {
  import opened Wrappers
  import opened Lists
  import opened Subsets
  import opened Probs
  import opened Population
  import opened Joint
  import opened Marginals
  import opened Inference

  /** A person with neither parent listed whose trait has been observed. */
  predicate ObservedFounder(p: Person)
  {
    p.IsFounder() && p.evidence.Some?
  }

  /** The only trait set that agrees with observation `shown` of person `n`. */
  function Observed(n: string, shown: bool): set<string>
  {
    if shown then {n} else {}
  }

  /** The worlds of that person alone, in enumeration order: no copies, two, one. */
  function LoneWorlds(n: string, shown: bool): seq<World>
  {
    var t := Observed(n, shown);
    [World({}, {}, t), World({}, {n}, t), World({n}, {}, t)]
  }

  /** Only the trait set matching the observation survives the evidence; it meets the
      three gene splits. */
  lemma LoneWorldsEnumerated(p: Person)
    requires ObservedFounder(p)
    ensures Worlds([p]) == LoneWorlds(p.name, p.evidence.value)
  {
    var n, b := p.name, p.evidence.value;
    var names := Names([p]);
    assert names == [n];
    assert names[1..] == [];
    assert PowerSet(names[1..]) == [{}];
    assert AddToEach([{}], n)[0] == {n};
    var ones: seq<set<string>> := PowerSet(names);
    assert ones == [{}, {n}];
    var rest := ones[1..];
    assert rest == [{n}] && rest[1..] == [];
    assert FailsEvidence([p], {}) == b by {
      assert [p][0] == p;
    }
    assert FailsEvidence([p], {n}) == !b by {
      assert [p][0] == p;
    }
    var ts: seq<set<string>> := [Observed(n, b)];
    assert KeepConsistent([p], rest) == (if b then [{n}] else []);
    assert TraitSets([p]) == ts;
    assert Without(names, {}) == [n];
    assert Without(names, {n}) == [];
    assert PowerSet(Without(names, {n})) == [{}];
    var splits := GeneSplits(names);
    assert Splits(names, rest) == Pair({n}, [{}]) by {
      assert Splits(names, rest[1..]) == [];
    }
    assert splits == Pair({}, [{}, {n}]) + Pair({n}, [{}]);
    assert splits == [({}, {}), ({}, {n}), ({n}, {})];
    assert ts[1..] == [];
    assert Worlds([p]) == WithTrait(splits, Observed(n, b)) + WorldsFor([], splits);
  }

  /** Each world's probability is the prior of its gene count times the chance of the
      observed trait value given that count. */
  lemma LoneProbabilities(p: Person)
    requires ObservedFounder(p)
    ensures var ws, b := LoneWorlds(p.name, p.evidence.value), p.evidence.value;
      && JointProbability([p], ws[0]) == Prior(Zero) * TraitProb(Zero, b)
      && JointProbability([p], ws[1]) == Prior(Two) * TraitProb(Two, b)
      && JointProbability([p], ws[2]) == Prior(One) * TraitProb(One, b)
  {
    var ws := LoneWorlds(p.name, p.evidence.value);
    LoneFounder(p, ws[0]);
    LoneFounder(p, ws[1]);
    LoneFounder(p, ws[2]);
  }

  /** Summed over the three worlds: each gene bucket collects prior times likelihood, the
      observed trait bucket collects everything and the other one nothing. */
  lemma LoneMasses(p: Person)
    requires ObservedFounder(p)
    ensures var ws, n, b := LoneWorlds(p.name, p.evidence.value), p.name, p.evidence.value;
      && Mass([p], ws) == (if b then 0.0329 else 0.9671)
      && (forall g :: GeneMass([p], ws, n, g) == Prior(g) * TraitProb(g, b))
      && TraitMass([p], ws, n, b) == Mass([p], ws)
      && TraitMass([p], ws, n, !b) == 0.0
  {
    var n, b := p.name, p.evidence.value;
    var ws := LoneWorlds(n, b);
    LoneProbabilities(p);
    var w1, w2 := ws[1..], ws[1..][1..];
    assert w1 == [ws[1], ws[2]] && w2 == [ws[2]] && w2[1..] == [];
    assert GenesOf(n, ws[0].one, ws[0].two) == Zero;
    assert GenesOf(n, ws[1].one, ws[1].two) == Two;
    assert GenesOf(n, ws[2].one, ws[2].two) == One;
    assert (n in ws[0].haveTrait) == b && (n in ws[1].haveTrait) == b && (n in ws[2].haveTrait) == b;
    var j0, j1, j2 := JointProbability([p], ws[0]), JointProbability([p], ws[1]), JointProbability([p], ws[2]);
    assert w2[0] == ws[2] && w1[0] == ws[1];
    assert Mass([p], w2[1..]) == 0.0;
    var w3 := w2[1..];
    assert GeneMass([p], w3, n, Two) == 0.0 && GeneMass([p], w3, n, One) == 0.0 && GeneMass([p], w3, n, Zero) == 0.0;
    assert TraitMass([p], w3, n, b) == 0.0 && TraitMass([p], w3, n, !b) == 0.0;
    assert Mass([p], w2) == j2;
    assert Mass([p], w1) == j1 + j2;
    assert Mass([p], ws) == j0 + j1 + j2;
    assert GeneMass([p], w2, n, Two) == 0.0 && GeneMass([p], w2, n, One) == j2 && GeneMass([p], w2, n, Zero) == 0.0;
    assert GeneMass([p], w1, n, Two) == j1 && GeneMass([p], w1, n, One) == j2 && GeneMass([p], w1, n, Zero) == 0.0;
    assert GeneMass([p], ws, n, Two) == j1 && GeneMass([p], ws, n, One) == j2 && GeneMass([p], ws, n, Zero) == j0;
    assert TraitMass([p], w2, n, b) == j2 && TraitMass([p], w2, n, !b) == 0.0;
    assert TraitMass([p], w1, n, b) == j1 + j2 && TraitMass([p], w1, n, !b) == 0.0;
  }

  /** Relative to its prior, each gene count's mass is the likelihood of the observation. */
  lemma LoneLikelihood(p: Person, g: GeneCount)
    requires ObservedFounder(p)
    ensures GeneMass([p], LoneWorlds(p.name, p.evidence.value), p.name, g) / Prior(g)
         == TraitProb(g, p.evidence.value)
  {
    LoneMasses(p);
  }

  /** The observation moves weight toward the gene counts that explain it: relative to the
      prior, seeing the trait favours two copies most and no copies least, and not seeing
      it favours no copies most and two copies least. Infer divides all three masses by
      the same positive total, so its posterior keeps this order. */
  lemma LoneEvidenceFavoursCopies(p: Person)
    requires ObservedFounder(p)
    ensures var ws, n := LoneWorlds(p.name, p.evidence.value), p.name;
      var two, one, zero := GeneMass([p], ws, n, Two) / Prior(Two), GeneMass([p], ws, n, One) / Prior(One),
        GeneMass([p], ws, n, Zero) / Prior(Zero);
      && (p.evidence == Some(true) ==> two > one > zero)
      && (p.evidence == Some(false) ==> zero > one > two)
  {
    LoneLikelihood(p, Two);
    LoneLikelihood(p, One);
    LoneLikelihood(p, Zero);
    TraitProbIncreasing();
    TraitProbNotShownDecreasing();
  }
}
