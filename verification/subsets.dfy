/**
  Subset enumeration: the power set of a list of names, the filter that drops
  the names already used, and the nested enumeration of disjoint
  (one-copy, two-copy) gene splits that the inference loop walks.
  Subsets are listed in include-or-exclude order rather than itertools'
  by-size order; no sum depends on the order.
 */
module Subsets {
  import opened Lists

  function Pow2(n: nat): (r: nat)
    ensures r >= 1
  {
    if n == 0 then 1 else 2 * Pow2(n - 1)
  }

  function Pow3(n: nat): (r: nat)
    ensures r >= 1
  {
    if n == 0 then 1 else 3 * Pow3(n - 1)
  }

  /** Every subset of the list extended with `x`. */
  function AddToEach<T(==)>(ss: seq<set<T>>, x: T): (r: seq<set<T>>)
    ensures |r| == |ss|
    ensures forall i :: 0 <= i < |r| ==> r[i] == ss[i] + {x}
  {
    seq(|ss|, i requires 0 <= i < |ss| => ss[i] + {x})
  }

  /** All subsets of the elements of `xs`, one per choice of in/out for each position. */
  function PowerSet<T(==)>(xs: seq<T>): (r: seq<set<T>>)
    ensures |r| == Pow2(|xs|)
    ensures forall i :: 0 <= i < |r| ==> r[i] <= Elems(xs)
    decreases |xs|
  {
    if xs == [] then [{}]
    else
      var rest := PowerSet(xs[1..]);
      assert forall i :: 0 <= i < |rest| ==> rest[i] <= Elems(xs);
      rest + AddToEach(rest, xs[0])
  }

  /** Every subset of the list's elements is listed. */
  lemma {:induction false} PowerSetComplete<T>(xs: seq<T>, s: set<T>)
    requires s <= Elems(xs)
    ensures s in PowerSet(xs)
    decreases |xs|
  {
    if xs == [] {
      assert s == {};
    } else {
      var x, rest := xs[0], xs[1..];
      var p := PowerSet(rest);
      assert PowerSet(xs) == p + AddToEach(p, x);
      assert Elems(xs) == {x} + Elems(rest) by {
        assert forall y :: y in xs <==> y == x || y in rest by {
          assert xs == [x] + rest;
        }
      }
      if x in s {
        PowerSetComplete(rest, s - {x});
        var i :| 0 <= i < |p| && p[i] == s - {x};
        assert AddToEach(p, x)[i] == s;
      } else {
        PowerSetComplete(rest, s);
      }
    }
  }

  /** A subset appears in the power set exactly when it is a subset of the list's elements. */
  lemma PowerSetMembers<T>(xs: seq<T>, s: set<T>)
    ensures s in PowerSet(xs) <==> s <= Elems(xs)
  {
    if s <= Elems(xs) {
      PowerSetComplete(xs, s);
    }
  }

  /** Over a list without repetitions no subset is listed twice. */
  lemma {:induction false} PowerSetDistinct<T>(xs: seq<T>)
    requires Distinct(xs)
    ensures Distinct(PowerSet(xs))
    decreases |xs|
  {
    if xs != [] {
      var x, rest := xs[0], xs[1..];
      assert Distinct(rest);
      PowerSetDistinct(rest);
      var p := PowerSet(rest);
      var q := AddToEach(p, x);
      assert x !in Elems(rest);
      assert forall i :: 0 <= i < |p| ==> x !in p[i];
      assert forall i, j :: 0 <= i < j < |q| ==> q[i] != q[j] by {
        forall i, j | 0 <= i < j < |q|
          ensures q[i] != q[j]
        {
          assert p[i] != p[j];
          assert q[i] - {x} == p[i];
          assert q[j] - {x} == p[j];
        }
      }
      assert forall i, j :: 0 <= i < |p| && 0 <= j < |q| ==> p[i] != q[j] by {
        forall i, j | 0 <= i < |p| && 0 <= j < |q|
          ensures p[i] != q[j]
        {
          assert x in q[j];
        }
      }
      var r := p + q;
      assert PowerSet(xs) == r;
      forall i, j | 0 <= i < j < |r|
        ensures r[i] != r[j]
      {
        if j < |p| {
        } else if i >= |p| {
          assert r[i] == q[i - |p|] && r[j] == q[j - |p|];
        } else {
          assert r[j] == q[j - |p|];
        }
      }
    }
  }

  /** The list with every element of `s` dropped, in the original order (`names - one_gene`). */
  function Without<T(==)>(xs: seq<T>, s: set<T>): (r: seq<T>)
    ensures Elems(r) == Elems(xs) - s
    ensures |r| <= |xs|
    ensures Distinct(xs) ==> Distinct(r)
    decreases |xs|
  {
    if xs == [] then []
    else
      var tail := Without(xs[1..], s);
      ElemsConcat([xs[0]], xs[1..]);
      assert xs == [xs[0]] + xs[1..];
      assert Distinct(xs) ==> Distinct(xs[1..]) && xs[0] !in Elems(xs[1..]);
      if xs[0] in s then tail
      else
        ElemsConcat([xs[0]], tail);
        DistinctCons(xs[0], tail);
        [xs[0]] + tail
  }

  lemma {:induction false} WithoutUnaffected<T>(xs: seq<T>, s: set<T>, x: T)
    requires x !in Elems(xs)
    ensures Without(xs, s + {x}) == Without(xs, s)
    decreases |xs|
  {
    if xs != [] {
      assert x != xs[0];
      WithoutUnaffected(xs[1..], s, x);
    }
  }

  /** Pairs one fixed first component with every set of a list. */
  function Pair<T(==)>(o: set<T>, ts: seq<set<T>>): (r: seq<(set<T>, set<T>)>)
    ensures |r| == |ts|
    ensures forall i :: 0 <= i < |r| ==> r[i] == (o, ts[i])
  {
    seq(|ts|, i requires 0 <= i < |ts| => (o, ts[i]))
  }

  /** For each one-copy set in `ones`, every two-copy set drawn from the names it leaves. */
  function Splits<T(==)>(xs: seq<T>, ones: seq<set<T>>): (r: seq<(set<T>, set<T>)>)
    decreases |ones|
  {
    if ones == [] then []
    else Pair(ones[0], PowerSet(Without(xs, ones[0]))) + Splits(xs, ones[1..])
  }

  /** The two nested loops of the inference over one-copy and two-copy sets. */
  function GeneSplits<T(==)>(xs: seq<T>): (r: seq<(set<T>, set<T>)>)
  {
    Splits(xs, PowerSet(xs))
  }

  lemma {:induction false} SplitsMembers<T>(xs: seq<T>, ones: seq<set<T>>, o: set<T>, w: set<T>)
    ensures (o, w) in Splits(xs, ones) <==> o in ones && w <= Elems(xs) - o
    decreases |ones|
  {
    if ones != [] {
      SplitsMembers(xs, ones[1..], o, w);
      var ws := PowerSet(Without(xs, ones[0]));
      var head := Pair(ones[0], ws);
      assert (o, w) in head <==> o == ones[0] && w in ws;
      PowerSetMembers(Without(xs, ones[0]), w);
      assert ones == [ones[0]] + ones[1..];
    }
  }

  /** A (one, two) pair is enumerated exactly when both are subsets of the names and
      they are disjoint: the partition is disjoint by construction and nothing is missed. */
  lemma GeneSplitsMembers<T>(xs: seq<T>, o: set<T>, w: set<T>)
    ensures (o, w) in GeneSplits(xs) <==> o <= Elems(xs) && w <= Elems(xs) && o !! w
  {
    SplitsMembers(xs, PowerSet(xs), o, w);
    PowerSetMembers(xs, o);
  }

  lemma {:induction false} SplitsAppend<T>(xs: seq<T>, a: seq<set<T>>, b: seq<set<T>>)
    ensures Splits(xs, a + b) == Splits(xs, a) + Splits(xs, b)
    decreases |a|
  {
    if a != [] {
      assert (a + b)[0] == a[0];
      assert (a + b)[1..] == a[1..] + b;
      SplitsAppend(xs, a[1..], b);
      var h := Pair(a[0], PowerSet(Without(xs, a[0])));
      assert Splits(xs, a + b) == h + Splits(xs, a[1..] + b);
      assert Splits(xs, a) == h + Splits(xs, a[1..]);
    } else {
      assert a + b == b;
    }
  }

  /** With `x` in front, every one-copy set that avoids `x` leaves `x` free for the
      two-copy set, doubling the choices. */
  lemma {:induction false} SplitsCountFree<T>(x: T, rest: seq<T>, ones: seq<set<T>>)
    requires x !in Elems(rest)
    requires forall i :: 0 <= i < |ones| ==> x !in ones[i]
    ensures |Splits([x] + rest, ones)| == 2 * |Splits(rest, ones)|
    decreases |ones|
  {
    if ones != [] {
      SplitsCountFree(x, rest, ones[1..]);
      var xs := [x] + rest;
      assert xs[1..] == rest;
      assert Without(xs, ones[0]) == [x] + Without(rest, ones[0]);
    }
  }

  /** A one-copy set that contains `x` leaves the same two-copy choices as without it. */
  lemma {:induction false} SplitsCountTaken<T>(x: T, rest: seq<T>, ones: seq<set<T>>)
    requires x !in Elems(rest)
    ensures |Splits([x] + rest, AddToEach(ones, x))| == |Splits(rest, ones)|
    decreases |ones|
  {
    if ones != [] {
      SplitsCountTaken(x, rest, ones[1..]);
      var xs := [x] + rest;
      assert xs[1..] == rest;
      assert AddToEach(ones, x)[1..] == AddToEach(ones[1..], x);
      WithoutUnaffected(rest, ones[0], x);
      assert Without(xs, ones[0] + {x}) == Without(rest, ones[0] + {x});
    }
  }

  /** Over n distinct names there are exactly 3^n (one, two) pairs: each name is in
      one-copy, two-copy or neither. */
  lemma {:induction false} GeneSplitsCount<T>(xs: seq<T>)
    requires Distinct(xs)
    ensures |GeneSplits(xs)| == Pow3(|xs|)
    decreases |xs|
  {
    if xs != [] {
      var x, rest := xs[0], xs[1..];
      assert xs == [x] + rest;
      assert Distinct(rest);
      assert x !in Elems(rest);
      var p := PowerSet(rest);
      assert PowerSet(xs) == p + AddToEach(p, x);
      SplitsAppend(xs, p, AddToEach(p, x));
      assert forall i :: 0 <= i < |p| ==> x !in p[i];
      SplitsCountFree(x, rest, p);
      SplitsCountTaken(x, rest, p);
      GeneSplitsCount(rest);
    } else {
      assert PowerSet(xs) == [{}];
      assert Splits(xs, [{}]) == Pair({}, PowerSet(Without(xs, {}))) + Splits(xs, []);
    }
  }

  lemma {:induction false} SplitsDistinct<T>(xs: seq<T>, ones: seq<set<T>>)
    requires Distinct(xs) && Distinct(ones)
    ensures Distinct(Splits(xs, ones))
    decreases |ones|
  {
    if ones != [] {
      var o := ones[0];
      var ws := PowerSet(Without(xs, o));
      PowerSetDistinct(Without(xs, o));
      var head := Pair(o, ws);
      var tail := Splits(xs, ones[1..]);
      assert Distinct(ones[1..]);
      SplitsDistinct(xs, ones[1..]);
      assert Distinct(head) by {
        forall i, j | 0 <= i < j < |head|
          ensures head[i] != head[j]
        {
          assert ws[i] != ws[j];
        }
      }
      forall i, j | 0 <= i < |head| && 0 <= j < |tail|
        ensures head[i] != tail[j]
      {
        assert tail[j] in tail;
        SplitsMembers(xs, ones[1..], tail[j].0, tail[j].1);
        assert o !in ones[1..] by {
          forall k | 0 <= k < |ones[1..]|
            ensures ones[1..][k] != o
          {
            assert ones[1..][k] == ones[k + 1];
          }
        }
      }
      DistinctAppend(head, tail);
    }
  }

  /** Over distinct names no (one, two) pair is enumerated twice. */
  lemma GeneSplitsDistinct<T>(xs: seq<T>)
    requires Distinct(xs)
    ensures Distinct(GeneSplits(xs))
  {
    PowerSetDistinct(xs);
    SplitsDistinct(xs, PowerSet(xs));
  }
}
