/**
  Per-person marginal distributions: mass on each gene count and on each
  trait value, accumulated world by world and rescaled once at the end.
 */
module Marginals {
  import opened Probs
  import opened Joint

  /** Mass on each gene count. */
  datatype GeneDist = GeneDist(two: real, one: real, zero: real)
  {
    function Get(g: GeneCount): real
    {
      match g
      case Two => two
      case One => one
      case Zero => zero
    }

    function Total(): real
    {
      two + one + zero
    }

    predicate NonNegative()
    {
      0.0 <= two && 0.0 <= one && 0.0 <= zero
    }

    /** Adds `p` to the bucket of gene count `g`. */
    function Add(g: GeneCount, p: real): (r: GeneDist)
      ensures forall h :: r.Get(h) == Get(h) + (if h == g then p else 0.0)
      ensures r.Total() == Total() + p
    {
      match g
      case Two => GeneDist(two + p, one, zero)
      case One => GeneDist(two, one + p, zero)
      case Zero => GeneDist(two, one, zero + p)
    }

    /** Every bucket divided by the total. */
    function Normalized(): (r: GeneDist)
      requires Total() != 0.0
      ensures r.Total() == 1.0
      ensures forall g, h :: r.Get(g) * Get(h) == r.Get(h) * Get(g)
      ensures forall g :: r.Get(g) == Get(g) / Total()
      ensures NonNegative() ==> r.NonNegative() && forall g :: r.Get(g) <= 1.0
    {
      var s := Total();
      GeneScaleFacts(this, s);
      GeneDist(two / s, one / s, zero / s)
    }
  }

  /** Mass on showing and on not showing the trait. */
  datatype TraitDist = TraitDist(yes: real, no: real)
  {
    function Get(shown: bool): real
    {
      if shown then yes else no
    }

    function Total(): real
    {
      yes + no
    }

    predicate NonNegative()
    {
      0.0 <= yes && 0.0 <= no
    }

    /** Adds `p` to the bucket of trait value `shown`. */
    function Add(shown: bool, p: real): (r: TraitDist)
      ensures forall b :: r.Get(b) == Get(b) + (if b == shown then p else 0.0)
      ensures r.Total() == Total() + p
    {
      if shown then TraitDist(yes + p, no) else TraitDist(yes, no + p)
    }

    /** Both buckets divided by the total. */
    function Normalized(): (r: TraitDist)
      requires Total() != 0.0
      ensures r.Total() == 1.0
      ensures r.yes * no == r.no * yes
      ensures forall b :: r.Get(b) == Get(b) / Total()
      ensures NonNegative() ==> r.NonNegative() && r.yes <= 1.0 && r.no <= 1.0
    {
      var s := Total();
      TraitScaleFacts(this, s);
      TraitDist(yes / s, no / s)
    }
  }

  /** One person's gene and trait distributions. */
  datatype Marginal = Marginal(gene: GeneDist, shown: TraitDist)
  {
    predicate NonNegative()
    {
      gene.NonNegative() && shown.NonNegative()
    }
  }

  /** Everybody's distributions, keyed by name. */
  type Probabilities = map<string, Marginal>

  /** The all-zero starting point of every person. */
  const Blank: Marginal := Marginal(GeneDist(0.0, 0.0, 0.0), TraitDist(0.0, 0.0))

  lemma GeneScaleFacts(d: GeneDist, s: real)
    requires s == d.Total() && s != 0.0
    ensures var r := GeneDist(d.two / s, d.one / s, d.zero / s);
      && r.Total() == 1.0
      && (forall g, h :: r.Get(g) * d.Get(h) == r.Get(h) * d.Get(g))
      && (forall g :: r.Get(g) == d.Get(g) / s)
      && (d.NonNegative() ==> r.NonNegative() && forall g :: r.Get(g) <= 1.0)
  {
    var r := GeneDist(d.two / s, d.one / s, d.zero / s);
    DivideSum3(d.two, d.one, d.zero, s);
    GeneScaleRatios(d, s);
    GeneScaleBounds(d, s);
  }

  lemma GeneScaleRatios(d: GeneDist, s: real)
    requires s != 0.0
    ensures var r := GeneDist(d.two / s, d.one / s, d.zero / s);
      forall g, h :: r.Get(g) * d.Get(h) == r.Get(h) * d.Get(g)
  {
    var r := GeneDist(d.two / s, d.one / s, d.zero / s);
    forall g, h
      ensures r.Get(g) * d.Get(h) == r.Get(h) * d.Get(g)
    {
      assert r.Get(g) == d.Get(g) / s && r.Get(h) == d.Get(h) / s;
      GeneRatio(d, s, g, h);
    }
  }

  lemma GeneScaleBounds(d: GeneDist, s: real)
    requires s == d.Total() && s != 0.0
    ensures var r := GeneDist(d.two / s, d.one / s, d.zero / s);
      d.NonNegative() ==> r.NonNegative() && forall g :: r.Get(g) <= 1.0
  {
    if d.NonNegative() {
      DivideAtMost(d.two, d.one + d.zero, s);
      DivideAtMost(d.one, d.two + d.zero, s);
      DivideAtMost(d.zero, d.two + d.one, s);
    }
  }

  lemma GeneRatio(d: GeneDist, s: real, g: GeneCount, h: GeneCount)
    requires s != 0.0
    ensures (d.Get(g) / s) * d.Get(h) == (d.Get(h) / s) * d.Get(g)
  {
    DivideCross(d.Get(g), d.Get(h), s);
  }

  lemma TraitScaleFacts(d: TraitDist, s: real)
    requires s == d.Total() && s != 0.0
    ensures var r := TraitDist(d.yes / s, d.no / s);
      && r.Total() == 1.0
      && r.yes * d.no == r.no * d.yes
      && (forall b :: r.Get(b) == d.Get(b) / s)
      && (d.NonNegative() ==> r.NonNegative() && r.yes <= 1.0 && r.no <= 1.0)
  {
    DivideSum3(d.yes, d.no, 0.0, s);
    DivideCross(d.yes, d.no, s);
    if d.NonNegative() {
      DivideAtMost(d.yes, d.no, s);
      DivideAtMost(d.no, d.yes, s);
    }
  }

  lemma DivideSum3(a: real, b: real, c: real, s: real)
    requires s != 0.0 && a + b + c == s
    ensures a / s + b / s + c / s == 1.0
  {
    assert a / s + b / s + c / s == (a + b + c) / s;
  }

  lemma DivideCross(a: real, b: real, s: real)
    requires s != 0.0
    ensures (a / s) * b == (b / s) * a
  {
  }

  lemma DivideAtMost(a: real, rest: real, s: real)
    requires 0.0 <= a && 0.0 <= rest && s == a + rest && s != 0.0
    ensures 0.0 <= a / s <= 1.0
  {
  }

  /** Adds one world's probability `p`: for every person, `p` goes to the
      one gene bucket the world's sets select (two copies first, then one, else none) and
      to the one trait bucket of their membership in `haveTrait`; every other bucket is
      unchanged, so each person's gene total and trait total both grow by exactly `p`. */
  function Update(probs: Probabilities, one: set<string>, two: set<string>, haveTrait: set<string>, p: real): (r: Probabilities)
    ensures r.Keys == probs.Keys
    ensures forall n, g :: n in r ==>
      r[n].gene.Get(g) == probs[n].gene.Get(g) + (if g == GenesOf(n, one, two) then p else 0.0)
    ensures forall n, b :: n in r ==>
      r[n].shown.Get(b) == probs[n].shown.Get(b) + (if b == (n in haveTrait) then p else 0.0)
    ensures forall n :: n in r ==>
      r[n].gene.Total() == probs[n].gene.Total() + p && r[n].shown.Total() == probs[n].shown.Total() + p
  {
    map n | n in probs :: Marginal(probs[n].gene.Add(GenesOf(n, one, two), p), probs[n].shown.Add(n in haveTrait, p))
  }

  /** Divides each person's gene buckets by their gene total and trait buckets by their
      trait total. A zero total would be a division by zero.
      Afterwards each distribution sums to one and non-negative mass becomes
      probabilities in [0, 1]; the ratios between buckets are kept (NormalizeKeepsRatios). */
  function Normalize(probs: Probabilities): (r: Probabilities)
    requires forall n :: n in probs ==> probs[n].gene.Total() != 0.0 && probs[n].shown.Total() != 0.0
    ensures r.Keys == probs.Keys
    ensures forall n :: n in r ==> r[n].gene.Total() == 1.0 && r[n].shown.Total() == 1.0
    ensures forall n :: n in r && probs[n].NonNegative() ==>
      r[n].NonNegative() && (forall g :: r[n].gene.Get(g) <= 1.0) && r[n].shown.yes <= 1.0 && r[n].shown.no <= 1.0
  {
    map n | n in probs :: Marginal(probs[n].gene.Normalized(), probs[n].shown.Normalized())
  }

  /** Normalising keeps every ratio between two buckets of the same distribution. */
  lemma NormalizeKeepsRatios(probs: Probabilities, n: string)
    requires forall m :: m in probs ==> probs[m].gene.Total() != 0.0 && probs[m].shown.Total() != 0.0
    requires n in probs
    ensures var r := Normalize(probs);
      && (forall g, h :: r[n].gene.Get(g) * probs[n].gene.Get(h) == r[n].gene.Get(h) * probs[n].gene.Get(g))
      && r[n].shown.yes * probs[n].shown.no == r[n].shown.no * probs[n].shown.yes
  {
    var r := Normalize(probs);
    var gd, td := probs[n].gene, probs[n].shown;
    assert r[n].gene == gd.Normalized();
    assert r[n].shown == td.Normalized();
  }
}
