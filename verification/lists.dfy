/**
  Lists as ordered collections: their elements, and the absence of repetitions
  that a dictionary's keys guarantee.
 */
module Lists {

  /** The elements of a list, as a set. */
  function Elems<T(==)>(xs: seq<T>): set<T>
  {
    set x | x in xs
  }

  /** No element occurs twice. */
  predicate Distinct<T(==)>(xs: seq<T>)
  {
    forall i, j :: 0 <= i < j < |xs| ==> xs[i] != xs[j]
  }

  /** The elements of a concatenation are those of both parts. */
  lemma ElemsConcat<T>(a: seq<T>, b: seq<T>)
    ensures Elems(a + b) == Elems(a) + Elems(b)
  {
    assert forall y :: y in a + b <==> y in a || y in b;
  }

  /** Putting a new element in front of a list without repetitions keeps it so. */
  lemma DistinctCons<T>(x: T, tail: seq<T>)
    ensures Distinct(tail) && x !in Elems(tail) ==> Distinct([x] + tail)
  {
    if Distinct(tail) && x !in Elems(tail) {
      var r := [x] + tail;
      forall i, j | 0 <= i < j < |r|
        ensures r[i] != r[j]
      {
        assert r[j] == tail[j - 1];
        if i > 0 {
          assert r[i] == tail[i - 1];
        }
      }
    }
  }

  /** Two lists without repetitions and without common elements concatenate to one. */
  lemma DistinctAppend<T>(a: seq<T>, b: seq<T>)
    requires Distinct(a) && Distinct(b)
    requires forall i, j :: 0 <= i < |a| && 0 <= j < |b| ==> a[i] != b[j]
    ensures Distinct(a + b)
  {
    var r := a + b;
    forall i, j | 0 <= i < j < |r|
      ensures r[i] != r[j]
    {
      if j < |a| {
      } else if i >= |a| {
        assert r[i] == b[i - |a|] && r[j] == b[j - |a|];
      } else {
        assert r[i] == a[i] && r[j] == b[j - |a|];
      }
    }
  }
}
