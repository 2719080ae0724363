# Heredity: exact inference over gene and trait worlds

This project models the probabilistic core of `heredity.py`. The program takes a small
family table: each person has a name, optional mother and father, and an optional
observation of whether they show a hearing-impairment trait. It computes, for every
person, the probability of carrying 0, 1 or 2 copies of a gene and of showing the
trait, conditioned on the observations.

It does this by brute-force enumeration:

- every set of people who might show the trait (a power set);
- every trait set that contradicts a known observation is skipped;
- for each remaining trait set, every disjoint pair of "one copy" and "two copies"
  sets is visited;
- the probability of each resulting world is added into each person's gene and trait
  buckets;
- finally each person's buckets are normalised.

The model is split by the program's structure:

| module | file | what it holds |
|---|---|---|
| `Wrappers` | wrappers.dfy | `Option` |
| `Lists` | lists.dfy | the elements of a list and the absence of repetitions |
| `Probs` | probs.dfy | the `PROBS` tables: gene prior, trait table, mutation rate |
| `Population` | population.dfy | a person record; the conversion of one input row into a record |
| `Subsets` | subsets.dfy | `powerset`, `names - one_gene`, and the nested (one, two) split enumeration |
| `Joint` | joint.dfy | `joint_probability`: gene term (prior or inheritance) times trait term, multiplied over people |
| `Marginals` | marginals.dfy | the per-person gene and trait distributions, `update` and `normalize` |
| `Inference` | inference.dfy | the evidence filter and the loops of `main`, accumulation and normalisation, counting and distinctness of worlds |
| `Scenarios` | scenarios.dfy | a worked example: one person without parents whose trait is known |

Modelling choices:

- **Probabilities are exact `real`s,** not floating point.
- **The people dictionary is a `seq<Person>`.** Python dictionaries keep insertion
  order, and `DistinctNames` states the dictionary's unique-key property.
- **`powerset` is modelled on a list.** The source converts its set argument with
  `list(s)`, and the model returns the subsets as a list. The order differs from
  `itertools.combinations`' by-size order. The bucket sums do not depend on it,
  because every world is visited exactly once (`Inference.WorldsDistinct`).
- **The main loop is a fold over the list of visited worlds.** That fold is
  `Inference.Accumulate` over `Inference.Worlds`. Its result is stated as a marginal:
  each bucket equals the total probability of the worlds that select it
  (`Inference.AccumulateIsMarginal`).

## Model

| member | source | states |
|---|---|---|
| Probs.Prior | heredity/heredity.py:8-12 | every unconditional gene probability is strictly between 0 and 1 |
| Probs.PriorSumsToOne | heredity/heredity.py:8-12 | the priors for 2, 1 and 0 copies add up to one |
| Probs.TraitProb | heredity/heredity.py:14-33 | every trait-given-genes entry is strictly between 0 and 1 |
| Probs.TraitProbSumsToOne | heredity/heredity.py:14-33 | for each gene count the True and False columns add up to one |
| Probs.TraitProbIncreasing | heredity/heredity.py:18-30 | the chance of showing the trait rises strictly with the number of copies |
| Probs.TraitProbNotShownDecreasing | heredity/heredity.py:19-31 | the chance of not showing the trait falls strictly with the number of copies |
| Population.ParseTrait | heredity/heredity.py:114-115 | a trait cell is known-true exactly when it is "1", known-false exactly when it is "0", unknown otherwise |
| Population.ParseParent | heredity/heredity.py:112-113 | a parent cell means "no parent" exactly when it is blank, and otherwise names that parent |
| Population.FromRow | heredity/heredity.py:109-116 | a row keeps its name, and the person counts as a founder exactly when both parent cells are blank |
| Population.TraitCellRoundTrip | heredity/heredity.py:114-115 | reading back a written trait cell gives back the same known or unknown trait |
| Subsets.PowerSet | heredity/heredity.py:120-129 | the power set of n elements lists 2^n sets, each a subset of the input |
| Subsets.PowerSetMembers | heredity/heredity.py:120-129 | a set is listed exactly when it is a subset of the input's elements |
| Subsets.PowerSetDistinct | heredity/heredity.py:120-129 | over an input without repetitions no subset is listed twice |
| Subsets.Without | heredity/heredity.py:79 | `names - one_gene` holds exactly the names not in the one-copy set, and keeps them distinct |
| Subsets.GeneSplitsMembers | heredity/heredity.py:78-79 | a (one-copy, two-copy) pair is visited exactly when both are subsets of the names and they are disjoint |
| Subsets.GeneSplitsCount | heredity/heredity.py:78-79 | over n distinct names exactly 3^n pairs are visited |
| Subsets.GeneSplitsDistinct | heredity/heredity.py:78-79 | over distinct names no pair is visited twice |
| Joint.GenesOfPartition | heredity/heredity.py:146-150 | for disjoint sets a person has two copies exactly when in the two-copy set, one exactly when in the one-copy set, else none |
| Joint.ParentGenes | heredity/heredity.py:153-167 | a parent that is not listed, or is in neither set, counts as having no copy |
| Joint.Transmit | heredity/heredity.py:162-167 | a parent passes the gene with a probability strictly between 0 and 1 |
| Joint.TransmitIncreasing | heredity/heredity.py:164-166 | a parent with more copies is strictly more likely to pass one on |
| Joint.ChildGenesBounds | heredity/heredity.py:169-173 | with table-drawn passing probabilities each inheritance term is strictly between 0 and 1 |
| Joint.ChildGenesSumsToOne | heredity/heredity.py:169-173 | the inheritance terms for 2, 1 and 0 copies add up to one for any passing probabilities |
| Joint.ChildGenesSymmetric | heredity/heredity.py:169-173 | swapping mother and father leaves every inheritance term unchanged |
| Joint.BothParentsZeroOneCopy | heredity/heredity.py:164-171 | two parents without the gene give one copy with probability 2 * 0.01 * 0.99 |
| Joint.GeneFactor | heredity/heredity.py:156-173 | each person's gene term, prior or inheritance, is strictly between 0 and 1 |
| Joint.Factor | heredity/heredity.py:156-174 | gene term times trait term is strictly between 0 and 1 |
| Joint.JointProbabilityBounds | heredity/heredity.py:143-176 | a world's probability is positive and at most one, and below one once there is anyone |
| Joint.LoneFounder | heredity/heredity.py:156-157 | a single founder's world has probability prior times trait term |
| Marginals.GeneDist.Add | heredity/heredity.py:195 | adding p touches only the selected gene bucket and raises the total by p |
| Marginals.TraitDist.Add | heredity/heredity.py:196 | adding p touches only the selected trait bucket and raises the total by p |
| Marginals.GeneDist.Normalized | heredity/heredity.py:205-210 | each bucket is divided by the sum: the result sums to one, keeps every ratio, and lies in [0, 1] for non-negative input |
| Marginals.TraitDist.Normalized | heredity/heredity.py:212-214 | both buckets are divided by their sum: the result sums to one, keeps the ratio, and lies in [0, 1] for non-negative input |
| Marginals.Update | heredity/heredity.py:186-196 | keeps the same people; adds p to exactly the one gene bucket and the one trait bucket the world selects; every total grows by p |
| Marginals.Normalize | heredity/heredity.py:204-214 | keeps the same people; afterwards every gene and trait distribution sums to one, and lies in [0, 1] for non-negative input |
| Marginals.NormalizeKeepsRatios | heredity/heredity.py:204-214 | normalising keeps the relative proportions of every pair of buckets |
| Inference.KeepConsistent | heredity/heredity.py:69-75 | a trait set survives exactly when no known trait contradicts it |
| Inference.TraitSetsMembers | heredity/heredity.py:64-75 | the trait sets visited are exactly the subsets of the names that agree with every observation |
| Inference.UnknownNeverSkips | heredity/heredity.py:69-73 | adding or removing a person whose trait is unknown never changes whether a trait set is skipped |
| Inference.KnownTrueConsistent | heredity/heredity.py:69-73 | with distinct names, the set of people known to show the trait is drawn from the names and never fails the evidence |
| Inference.TraitSetsCount | heredity/heredity.py:64-75 | with distinct names 2^k trait sets survive, where k people have an unknown trait |
| Inference.WorldsMembers | heredity/heredity.py:64-83 | a world is visited exactly when its three sets are drawn from the names, the gene sets are disjoint and the trait set passes the evidence |
| Inference.WorldsNonEmpty | heredity/heredity.py:64-83 | with distinct names at least one world is always visited |
| Inference.WorldsCount | heredity/heredity.py:64-83 | with n distinct names of which k are unobserved the loops visit 2^k * 3^n worlds |
| Inference.TwoStrangersWorlds | heredity/heredity.py:64-83 | two unobserved people give 36 worlds |
| Inference.WorldsDistinct | heredity/heredity.py:64-83 | with distinct names no world is visited twice |
| Inference.MassPositive | heredity/heredity.py:82-83 | the summed probability of the visited worlds is never negative and is positive once a world is visited |
| Inference.MassSplits | heredity/heredity.py:82-83 | for each person the gene buckets and the trait buckets each split the total mass, and the total is positive once a world is visited |
| Inference.AccumulateIsMarginal | heredity/heredity.py:78-83 | after the loop each bucket holds its start value plus the total probability of exactly the worlds that select it |
| Inference.AccumulateFromBlank | heredity/heredity.py:49-83 | from all-zero buckets, each bucket ends as the mass of the worlds selecting it |
| Inference.Init | heredity/heredity.py:49-62 | every person starts with all-zero buckets |
| Inference.Posteriors | heredity/heredity.py:78-86 | each bucket is the mass of its worlds over the mass of all worlds; distributions sum to one and lie in [0, 1] |
| Inference.Infer | heredity/heredity.py:49-86 | for distinct names the division never fails; each person's posterior for a gene count or trait value is that value's share of the probability of all consistent worlds |
| Scenarios.LoneWorldsEnumerated | heredity/heredity.py:64-83 | one person without parents whose trait is known gives exactly three worlds (no copies, two, one), all with the trait set that matches the observation |
| Scenarios.LoneProbabilities | heredity/heredity.py:143-176 | each of those worlds has probability prior of its gene count times the chance of the observed trait value |
| Scenarios.LoneMasses | heredity/heredity.py:82-83 | the total is 0.0329 when the trait is seen and 0.9671 when it is not; each gene bucket collects prior times likelihood; the observed trait bucket collects everything and the other nothing |
| Scenarios.LoneLikelihood | heredity/heredity.py:82-83 | each gene bucket's mass divided by its prior is the likelihood of the observation |
| Scenarios.LoneEvidenceFavoursCopies | heredity/heredity.py:64-86 | relative to the prior, seeing the trait favours two copies most and no copies least; not seeing it favours no copies most and two copies least |

## Left out

- Reading the CSV file, the command-line argument check and `sys.exit` are not modelled. A row arrives as its four cells (`Population.FromRow`).
- Printing the results with four decimals is not modelled.
- Floating-point rounding is not modelled; all probabilities are exact reals. One consequence concerns the "no consistent world" division-by-zero error. With exact reals and distinct names it cannot occur. Every table entry is strictly between 0 and 1, so each world has positive probability (`Joint.JointProbabilityBounds`). The world with no copies and exactly the known-true people showing the trait always passes the filter (`Inference.WorldsNonEmpty`). Only float underflow could make a sum zero in the program.
- The order in which `itertools.combinations` lists subsets is not modelled. The model's own order visits the same worlds, each once.
- The source never checks that both parents are given together, or that a parent name belongs to someone in the table. The model keeps that behaviour: a parent that is missing or unknown is in no gene set, so it passes the gene only through mutation (`Joint.ParentGenes`). The model adds no precondition for it.
- Duplicate names cannot occur in the source, because the dictionary holds one entry per key. The model states uniqueness as `DistinctNames` where a result depends on it, and does not model a later row overwriting an earlier one.
- Marginals.Normalize: requires every sum to be non-zero, where the source would raise a division error. `Inference.Infer` shows that the inference run always meets this requirement.
- Scenarios.LoneEvidenceFavoursCopies: the ordering is stated on the accumulated masses before normalisation, for either observed value. `Inference.Infer` divides all three by the same positive total, so the posterior keeps the same order. The posterior values themselves are not restated for this scenario.
