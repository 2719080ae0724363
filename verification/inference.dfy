/**
  The inference loop: every trait set that agrees with the evidence, times
  every disjoint (one-copy, two-copy) split, each world's probability added
  into everyone's buckets, and the buckets normalised at the end. The
  result for each person is the probability of each gene count and each
  trait value conditioned on the evidence.
 */
module Inference {
  import opened Wrappers
  import opened Lists
  import opened Subsets
  import opened Probs
  import opened Population
  import opened Joint
  import opened Marginals

  /** A trait set contradicts the evidence when someone with a known trait is
      placed on the wrong side of it: the evidence check of the main loop. */
  predicate FailsEvidence(people: People, haveTrait: set<string>)
  {
    exists i :: 0 <= i < |people| && people[i].evidence.Some? && people[i].evidence.value != (people[i].name in haveTrait)
  }

  /** The candidates that survive the evidence filter, in order. */
  function KeepConsistent(people: People, cands: seq<set<string>>): (r: seq<set<string>>)
    ensures forall t :: t in r <==> t in cands && !FailsEvidence(people, t)
    ensures |r| <= |cands|
    ensures Distinct(cands) ==> Distinct(r)
    decreases |cands|
  {
    if cands == [] then []
    else
      var tail := KeepConsistent(people, cands[1..]);
      assert cands == [cands[0]] + cands[1..];
      assert Distinct(cands) ==> Distinct(cands[1..]) && cands[0] !in Elems(cands[1..]);
      if FailsEvidence(people, cands[0]) then tail
      else
        assert cands[0] !in tail ==> cands[0] !in Elems(tail);
        DistinctCons(cands[0], tail);
        [cands[0]] + tail
  }

  /** The trait sets the outer loop of the inference does not skip. */
  function TraitSets(people: People): seq<set<string>>
  {
    KeepConsistent(people, PowerSet(Names(people)))
  }

  /** A trait set is visited exactly when it is drawn from the population's names and no
      known trait contradicts it. */
  lemma TraitSetsMembers(people: People, t: set<string>)
    ensures t in TraitSets(people) <==> t <= Elems(Names(people)) && !FailsEvidence(people, t)
  {
    PowerSetMembers(Names(people), t);
  }

  /** Adding or removing someone whose trait is unknown never changes whether a trait set
      is skipped. */
  lemma UnknownNeverSkips(people: People, t: set<string>, n: string)
    requires forall i :: 0 <= i < |people| && people[i].name == n ==> people[i].evidence.None?
    ensures FailsEvidence(people, t + {n}) == FailsEvidence(people, t)
    ensures FailsEvidence(people, t - {n}) == FailsEvidence(people, t)
  {
    if FailsEvidence(people, t) {
      var i :| 0 <= i < |people| && people[i].evidence.Some? && people[i].evidence.value != (people[i].name in t);
      assert people[i].name != n;
      assert people[i].evidence.value != (people[i].name in t + {n});
      assert people[i].evidence.value != (people[i].name in t - {n});
    }
    if FailsEvidence(people, t + {n}) {
      var i :| 0 <= i < |people| && people[i].evidence.Some? && people[i].evidence.value != (people[i].name in t + {n});
      assert people[i].name != n;
    }
    if FailsEvidence(people, t - {n}) {
      var i :| 0 <= i < |people| && people[i].evidence.Some? && people[i].evidence.value != (people[i].name in t - {n});
      assert people[i].name != n;
    }
  }

  /** Everyone known to show the trait: a trait set that never fails the evidence. */
  function KnownTrue(people: People): set<string>
  {
    set i | 0 <= i < |people| && people[i].evidence == Some(true) :: people[i].name
  }

  lemma KnownTrueConsistent(people: People)
    requires DistinctNames(people)
    ensures KnownTrue(people) <= Elems(Names(people))
    ensures !FailsEvidence(people, KnownTrue(people))
  {
    var names := Names(people);
    forall i | 0 <= i < |people| && people[i].evidence.Some?
      ensures people[i].evidence.value == (people[i].name in KnownTrue(people))
    {
      if people[i].name in KnownTrue(people) {
        var j :| 0 <= j < |people| && people[j].evidence == Some(true) && people[j].name == people[i].name;
        assert names[i] == names[j];
        assert i == j;
      }
    }
    forall n | n in KnownTrue(people)
      ensures n in Elems(names)
    {
      var j :| 0 <= j < |people| && people[j].evidence == Some(true) && people[j].name == n;
      assert names[j] == n;
    }
  }

  /** Every split paired with one trait set. */
  function WithTrait(splits: seq<(set<string>, set<string>)>, t: set<string>): (r: seq<World>)
    ensures |r| == |splits|
    ensures forall i :: 0 <= i < |r| ==> r[i] == World(splits[i].0, splits[i].1, t)
  {
    seq(|splits|, i requires 0 <= i < |splits| => World(splits[i].0, splits[i].1, t))
  }

  /** Outer loop over trait sets, inner loops over gene splits. */
  function WorldsFor(ts: seq<set<string>>, splits: seq<(set<string>, set<string>)>): (r: seq<World>)
    decreases |ts|
  {
    if ts == [] then []
    else WithTrait(splits, ts[0]) + WorldsFor(ts[1..], splits)
  }

  /** Every world the three nested loops of the inference evaluate, in visiting order. */
  function Worlds(people: People): seq<World>
  {
    WorldsFor(TraitSets(people), GeneSplits(Names(people)))
  }

  lemma {:induction false} WorldsForMembers(ts: seq<set<string>>, splits: seq<(set<string>, set<string>)>, w: World)
    ensures w in WorldsFor(ts, splits) <==> w.haveTrait in ts && (w.one, w.two) in splits
    decreases |ts|
  {
    if ts != [] {
      WorldsForMembers(ts[1..], splits, w);
      assert ts == [ts[0]] + ts[1..];
      var head := WithTrait(splits, ts[0]);
      if w in head {
        var i :| 0 <= i < |head| && head[i] == w;
        assert splits[i] == (w.one, w.two);
      }
      if w.haveTrait == ts[0] && (w.one, w.two) in splits {
        var i :| 0 <= i < |splits| && splits[i] == (w.one, w.two);
        assert head[i] == w;
      }
    }
  }

  /** The loops visit exactly the worlds whose three sets are drawn from the names, whose
      one-copy and two-copy sets are disjoint, and whose trait set passes the evidence. */
  lemma WorldsMembers(people: People, w: World)
    ensures w in Worlds(people) <==>
      && w.one <= Elems(Names(people))
      && w.two <= Elems(Names(people))
      && w.one !! w.two
      && w.haveTrait <= Elems(Names(people))
      && !FailsEvidence(people, w.haveTrait)
  {
    WorldsForMembers(TraitSets(people), GeneSplits(Names(people)), w);
    TraitSetsMembers(people, w.haveTrait);
    GeneSplitsMembers(Names(people), w.one, w.two);
  }

  /** There is always at least one world to visit: no copies anywhere and exactly the
      people known to show the trait showing it. */
  lemma WorldsNonEmpty(people: People)
    requires DistinctNames(people)
    ensures |Worlds(people)| > 0
  {
    KnownTrueConsistent(people);
    WorldsMembers(people, World({}, {}, KnownTrue(people)));
  }

  /** Sum of the probabilities of a list of worlds. */
  function Mass(people: People, ws: seq<World>): real
    decreases |ws|
  {
    if ws == [] then 0.0
    else JointProbability(people, ws[0]) + Mass(people, ws[1..])
  }

  /** Sum of the probabilities of those worlds that give `n` the gene count `g`. */
  function GeneMass(people: People, ws: seq<World>, n: string, g: GeneCount): real
    decreases |ws|
  {
    if ws == [] then 0.0
    else
      (if GenesOf(n, ws[0].one, ws[0].two) == g then JointProbability(people, ws[0]) else 0.0)
      + GeneMass(people, ws[1..], n, g)
  }

  /** Sum of the probabilities of those worlds that put `n` on side `shown` of the trait. */
  function TraitMass(people: People, ws: seq<World>, n: string, shown: bool): real
    decreases |ws|
  {
    if ws == [] then 0.0
    else
      (if (n in ws[0].haveTrait) == shown then JointProbability(people, ws[0]) else 0.0)
      + TraitMass(people, ws[1..], n, shown)
  }

  /** The total mass never goes negative, and any world at all makes it positive, since
      every world has positive probability. */
  lemma {:induction false} MassPositive(people: People, ws: seq<World>)
    ensures 0.0 <= Mass(people, ws)
    ensures ws != [] ==> 0.0 < Mass(people, ws)
    decreases |ws|
  {
    if ws != [] {
      MassPositive(people, ws[1..]);
      JointProbabilityBounds(people, ws[0]);
    }
  }

  /** Each world lands in exactly one gene bucket and one trait bucket per person, so the
      buckets split the total mass; every partial sum is non-negative, and the total is
      positive as soon as there is a world. */
  lemma {:induction false} MassSplits(people: People, ws: seq<World>, n: string)
    ensures GeneMass(people, ws, n, Two) + GeneMass(people, ws, n, One) + GeneMass(people, ws, n, Zero) == Mass(people, ws)
    ensures TraitMass(people, ws, n, true) + TraitMass(people, ws, n, false) == Mass(people, ws)
    ensures forall g :: 0.0 <= GeneMass(people, ws, n, g)
    ensures forall b :: 0.0 <= TraitMass(people, ws, n, b)
    ensures ws != [] ==> 0.0 < Mass(people, ws)
    decreases |ws|
  {
    if ws != [] {
      MassSplits(people, ws[1..], n);
      JointProbabilityBounds(people, ws[0]);
    }
  }

  /** Feeds every world of `ws`, in order, with its probability into `probs`: the update
      at the heart of the inner loop. */
  function Accumulate(probs: Probabilities, people: People, ws: seq<World>): Probabilities
    decreases |ws|
  {
    if ws == [] then probs
    else
      var w := ws[0];
      Accumulate(Update(probs, w.one, w.two, w.haveTrait, JointProbability(people, w)), people, ws[1..])
  }

  /** After accumulation each bucket holds its starting value plus exactly the probability
      of the worlds that select it: the marginal of the joint distribution over `ws`. */
  lemma {:induction false} AccumulateIsMarginal(probs: Probabilities, people: People, ws: seq<World>)
    ensures Accumulate(probs, people, ws).Keys == probs.Keys
    ensures forall n, g :: n in probs ==>
      Accumulate(probs, people, ws)[n].gene.Get(g) == probs[n].gene.Get(g) + GeneMass(people, ws, n, g)
    ensures forall n, b :: n in probs ==>
      Accumulate(probs, people, ws)[n].shown.Get(b) == probs[n].shown.Get(b) + TraitMass(people, ws, n, b)
    decreases |ws|
  {
    if ws != [] {
      var w := ws[0];
      var next := Update(probs, w.one, w.two, w.haveTrait, JointProbability(people, w));
      AccumulateIsMarginal(next, people, ws[1..]);
    }
  }

  /** Starting from all-zero buckets, each bucket ends up holding exactly the probability
      of the worlds that select it. */
  lemma AccumulateFromBlank(people: People, ws: seq<World>)
    ensures var acc := Accumulate(Init(people), people, ws);
      && acc.Keys == Elems(Names(people))
      && (forall n, g :: n in acc ==> acc[n].gene.Get(g) == GeneMass(people, ws, n, g))
      && (forall n, b :: n in acc ==> acc[n].shown.Get(b) == TraitMass(people, ws, n, b))
  {
    var init := Init(people);
    AccumulateIsMarginal(init, people, ws);
    assert forall n, g :: n in init ==> init[n].gene.Get(g) == 0.0;
    assert forall n, b :: n in init ==> init[n].shown.Get(b) == 0.0;
  }

  /** Every person starts with all-zero buckets. */
  function Init(people: People): (r: Probabilities)
    ensures r.Keys == Elems(Names(people))
    ensures forall n :: n in r ==> r[n] == Blank
  {
    map n | n in Elems(Names(people)) :: Blank
  }

  /** Accumulates a non-empty list of worlds into all-zero buckets and normalises.
      Each bucket ends up as the probability of the worlds that select it divided by the
      probability of all the worlds, and each person's distributions sum to one. */
  function Posteriors(people: People, ws: seq<World>): (r: Probabilities)
    requires ws != []
    ensures 0.0 < Mass(people, ws)
    ensures r.Keys == Elems(Names(people))
    ensures forall n, g :: n in r ==> r[n].gene.Get(g) == GeneMass(people, ws, n, g) / Mass(people, ws)
    ensures forall n, b :: n in r ==> r[n].shown.Get(b) == TraitMass(people, ws, n, b) / Mass(people, ws)
    ensures forall n :: n in r ==> r[n].gene.Total() == 1.0 && r[n].shown.Total() == 1.0
    ensures forall n, g :: n in r ==> 0.0 <= r[n].gene.Get(g) <= 1.0
    ensures forall n, b :: n in r ==> 0.0 <= r[n].shown.Get(b) <= 1.0
  {
    var acc := Accumulate(Init(people), people, ws);
    AccumulateFromBlank(people, ws);
    MassPositive(people, ws);
    InferFacts(people, ws, acc);
    Posterior(people, ws, acc);
    Normalize(acc)
  }

  /** The whole inference: accumulate every visited world, then
      normalise. The result is the posterior given the evidence: each bucket is the
      probability of the visited worlds that select it divided by the probability of all
      visited worlds. The division is always defined: with the exact table values every
      world has positive probability, and there is always a world to visit. */
  function Infer(people: People): (r: Probabilities)
    requires DistinctNames(people)
    ensures 0.0 < Mass(people, Worlds(people))
    ensures r.Keys == Elems(Names(people))
    ensures forall n, g :: n in r ==>
      r[n].gene.Get(g) == GeneMass(people, Worlds(people), n, g) / Mass(people, Worlds(people))
    ensures forall n, b :: n in r ==>
      r[n].shown.Get(b) == TraitMass(people, Worlds(people), n, b) / Mass(people, Worlds(people))
    ensures forall n :: n in r ==> r[n].gene.Total() == 1.0 && r[n].shown.Total() == 1.0
    ensures forall n, g :: n in r ==> 0.0 <= r[n].gene.Get(g) <= 1.0
    ensures forall n, b :: n in r ==> 0.0 <= r[n].shown.Get(b) <= 1.0
  {
    WorldsNonEmpty(people);
    Posteriors(people, Worlds(people))
  }

  lemma Posterior(people: People, ws: seq<World>, acc: Probabilities)
    requires forall n :: n in acc ==>
      && acc[n].gene.Total() == Mass(people, ws) && acc[n].shown.Total() == Mass(people, ws)
      && 0.0 < Mass(people, ws) && acc[n].NonNegative()
    requires forall n, g :: n in acc ==> acc[n].gene.Get(g) == GeneMass(people, ws, n, g)
    requires forall n, b :: n in acc ==> acc[n].shown.Get(b) == TraitMass(people, ws, n, b)
    ensures var r := Normalize(acc);
      && (forall n, g :: n in r ==> r[n].gene.Get(g) == GeneMass(people, ws, n, g) / Mass(people, ws))
      && (forall n, b :: n in r ==> r[n].shown.Get(b) == TraitMass(people, ws, n, b) / Mass(people, ws))
      && (forall n, g :: n in r ==> 0.0 <= r[n].gene.Get(g) <= 1.0)
      && (forall n, b :: n in r ==> 0.0 <= r[n].shown.Get(b) <= 1.0)
  {
    var r := Normalize(acc);
    forall n | n in r
      ensures forall g :: r[n].gene.Get(g) == GeneMass(people, ws, n, g) / Mass(people, ws)
      ensures forall b :: r[n].shown.Get(b) == TraitMass(people, ws, n, b) / Mass(people, ws)
      ensures forall g :: 0.0 <= r[n].gene.Get(g) <= 1.0
      ensures forall b :: 0.0 <= r[n].shown.Get(b) <= 1.0
    {
      assert r[n] == Marginal(acc[n].gene.Normalized(), acc[n].shown.Normalized());
    }
  }

  lemma InferFacts(people: People, ws: seq<World>, acc: Probabilities)
    requires ws != []
    requires acc.Keys == Elems(Names(people))
    requires forall n, g :: n in acc ==> acc[n].gene.Get(g) == GeneMass(people, ws, n, g)
    requires forall n, b :: n in acc ==> acc[n].shown.Get(b) == TraitMass(people, ws, n, b)
    ensures forall n :: n in acc ==>
      && acc[n].gene.Total() == Mass(people, ws) && acc[n].shown.Total() == Mass(people, ws)
      && 0.0 < Mass(people, ws) && acc[n].NonNegative()
  {
    forall n | n in acc
      ensures acc[n].gene.Total() == Mass(people, ws) && acc[n].shown.Total() == Mass(people, ws)
      ensures 0.0 < Mass(people, ws) && acc[n].NonNegative()
    {
      MassSplits(people, ws, n);
      assert acc[n].gene.Total() == acc[n].gene.Get(Two) + acc[n].gene.Get(One) + acc[n].gene.Get(Zero);
      assert acc[n].shown.Total() == acc[n].shown.Get(true) + acc[n].shown.Get(false);
    }
  }

  /** Number of people whose trait is unknown. */
  function UnknownCount(people: People): nat
    decreases |people|
  {
    if people == [] then 0
    else (if people[0].evidence.None? then 1 else 0) + UnknownCount(people[1..])
  }

  lemma {:induction false} KeepConsistentAppend(people: People, a: seq<set<string>>, b: seq<set<string>>)
    ensures KeepConsistent(people, a + b) == KeepConsistent(people, a) + KeepConsistent(people, b)
    decreases |a|
  {
    if a == [] {
      assert a + b == b;
    } else {
      assert (a + b)[0] == a[0];
      assert (a + b)[1..] == a[1..] + b;
      KeepConsistentAppend(people, a[1..], b);
    }
  }

  lemma FailsEvidenceCons(p: Person, rest: People, t: set<string>)
    ensures FailsEvidence([p] + rest, t)
        == ((p.evidence.Some? && p.evidence.value != (p.name in t)) || FailsEvidence(rest, t))
  {
    var people := [p] + rest;
    if FailsEvidence(rest, t) {
      var i :| 0 <= i < |rest| && rest[i].evidence.Some? && rest[i].evidence.value != (rest[i].name in t);
      assert people[i + 1] == rest[i];
    }
    if FailsEvidence(people, t) {
      var i :| 0 <= i < |people| && people[i].evidence.Some? && people[i].evidence.value != (people[i].name in t);
      if i > 0 {
        assert rest[i - 1] == people[i];
      }
    }
    if p.evidence.Some? && p.evidence.value != (p.name in t) {
      assert people[0] == p;
    }
  }

  lemma NotNamed(rest: People, x: string)
    requires x !in Elems(Names(rest))
    ensures forall i :: 0 <= i < |rest| && rest[i].name == x ==> rest[i].evidence.None?
  {
    forall i | 0 <= i < |rest|
      ensures rest[i].name != x
    {
      assert Names(rest)[i] == rest[i].name;
    }
  }

  /** Trait sets that leave the first person out survive unless that person is known
      to show the trait. */
  lemma {:induction false} KeepCountFree(p: Person, rest: People, ts: seq<set<string>>)
    requires forall i :: 0 <= i < |ts| ==> p.name !in ts[i]
    ensures |KeepConsistent([p] + rest, ts)| == if p.evidence == Some(true) then 0 else |KeepConsistent(rest, ts)|
    decreases |ts|
  {
    if ts != [] {
      KeepCountFree(p, rest, ts[1..]);
      FailsEvidenceCons(p, rest, ts[0]);
    }
  }

  /** Trait sets that put the first person in survive unless that person is known not
      to show the trait. */
  lemma {:induction false} KeepCountTaken(p: Person, rest: People, ts: seq<set<string>>)
    requires p.name !in Elems(Names(rest))
    ensures |KeepConsistent([p] + rest, AddToEach(ts, p.name))|
         == if p.evidence == Some(false) then 0 else |KeepConsistent(rest, ts)|
    decreases |ts|
  {
    if ts != [] {
      KeepCountTaken(p, rest, ts[1..]);
      assert AddToEach(ts, p.name)[1..] == AddToEach(ts[1..], p.name);
      FailsEvidenceCons(p, rest, ts[0] + {p.name});
      NotNamed(rest, p.name);
      UnknownNeverSkips(rest, ts[0], p.name);
    }
  }

  lemma DistinctNamesTail(people: People)
    requires DistinctNames(people) && people != []
    ensures DistinctNames(people[1..])
    ensures people[0].name !in Elems(Names(people[1..]))
  {
    var names, rest := Names(people), people[1..];
    forall i, j | 0 <= i < j < |rest|
      ensures Names(rest)[i] != Names(rest)[j]
    {
      assert names[i + 1] != names[j + 1];
    }
    forall i | 0 <= i < |rest|
      ensures Names(rest)[i] != people[0].name
    {
      assert names[i + 1] != names[0];
    }
  }

  /** Putting one more person in front doubles the surviving trait sets when their trait
      is unknown and keeps the number otherwise. */
  lemma TraitSetsCons(p: Person, rest: People)
    requires p.name !in Elems(Names(rest))
    ensures |TraitSets([p] + rest)| == (if p.evidence.None? then 2 else 1) * |TraitSets(rest)|
  {
    var people := [p] + rest;
    var names := Names(people);
    assert names == [p.name] + Names(rest);
    assert names[1..] == Names(rest);
    var ps := PowerSet(Names(rest));
    assert PowerSet(names) == ps + AddToEach(ps, p.name);
    KeepConsistentAppend(people, ps, AddToEach(ps, p.name));
    assert forall i :: 0 <= i < |ps| ==> p.name !in ps[i];
    KeepCountFree(p, rest, ps);
    KeepCountTaken(p, rest, ps);
  }

  lemma TraitSetsOfNobody()
    ensures |TraitSets([])| == 1
  {
    assert PowerSet(Names([])) == [{}];
    assert !FailsEvidence([], {});
  }

  /** With distinct names, 2^k trait sets survive the filter, k being the number of
      people whose trait is unknown: each of them may go either way, everyone else is
      pinned by the evidence. */
  lemma {:induction false} TraitSetsCount(people: People)
    requires DistinctNames(people)
    ensures |TraitSets(people)| == Pow2(UnknownCount(people))
    decreases |people|
  {
    if people == [] {
      TraitSetsOfNobody();
    } else {
      var p, rest := people[0], people[1..];
      DistinctNamesTail(people);
      TraitSetsCount(rest);
      assert people == [p] + rest;
      TraitSetsCons(p, rest);
      var k := UnknownCount(rest);
      assert |TraitSets(rest)| == Pow2(k);
      if p.evidence.None? {
        assert UnknownCount(people) == k + 1;
        assert Pow2(k + 1) == 2 * Pow2(k);
      } else {
        assert UnknownCount(people) == k;
      }
    }
  }

  lemma {:induction false} WorldsForCount(ts: seq<set<string>>, splits: seq<(set<string>, set<string>)>)
    ensures |WorldsFor(ts, splits)| == |ts| * |splits|
    decreases |ts|
  {
    if ts != [] {
      WorldsForCount(ts[1..], splits);
    }
  }

  /** With n distinct names of which k have an unknown trait, the loops visit exactly
      2^k * 3^n worlds. */
  lemma WorldsCount(people: People)
    requires DistinctNames(people)
    ensures |Worlds(people)| == Pow2(UnknownCount(people)) * Pow3(|people|)
  {
    TraitSetsCount(people);
    GeneSplitsCount(Names(people));
    WorldsForCount(TraitSets(people), GeneSplits(Names(people)));
  }

  /** Two people and no evidence: 9 gene splits times 4 trait sets. */
  lemma TwoStrangersWorlds(people: People)
    requires DistinctNames(people) && |people| == 2
    requires forall i :: 0 <= i < |people| ==> people[i].evidence.None?
    ensures |Worlds(people)| == 36
  {
    WorldsCount(people);
    var rest := people[1..];
    assert rest[0] == people[1] && rest[1..] == [];
    assert UnknownCount(rest[1..]) == 0;
    assert UnknownCount(rest) == 1;
  }

  lemma {:induction false} WorldsForDistinct(ts: seq<set<string>>, splits: seq<(set<string>, set<string>)>)
    requires Distinct(ts) && Distinct(splits)
    ensures Distinct(WorldsFor(ts, splits))
    decreases |ts|
  {
    if ts != [] {
      var head := WithTrait(splits, ts[0]);
      var tail := WorldsFor(ts[1..], splits);
      assert Distinct(ts[1..]);
      WorldsForDistinct(ts[1..], splits);
      assert Distinct(head) by {
        forall i, j | 0 <= i < j < |head|
          ensures head[i] != head[j]
        {
          assert splits[i] != splits[j];
        }
      }
      forall i, j | 0 <= i < |head| && 0 <= j < |tail|
        ensures head[i] != tail[j]
      {
        assert tail[j] in tail;
        WorldsForMembers(ts[1..], splits, tail[j]);
        assert ts[0] !in ts[1..] by {
          forall k | 0 <= k < |ts[1..]|
            ensures ts[1..][k] != ts[0]
          {
            assert ts[1..][k] == ts[k + 1];
          }
        }
      }
      DistinctAppend(head, tail);
    }
  }

  /** With distinct names no world is visited twice, so no world's probability is
      counted twice in the buckets. */
  lemma WorldsDistinct(people: People)
    requires DistinctNames(people)
    ensures Distinct(Worlds(people))
  {
    PowerSetDistinct(Names(people));
    GeneSplitsDistinct(Names(people));
    WorldsForDistinct(TraitSets(people), GeneSplits(Names(people)));
  }
}
