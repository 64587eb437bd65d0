/** Sorting a finite set of numbers: what `sorted` on dictionary keys and `np.unique`
    produce. */
module Ordering {

  predicate StrictlyAscending(xs: seq<real>) {
    forall i, j :: 0 <= i < j < |xs| ==> xs[i] < xs[j]
  }

  /** A finite non-empty set of keys has a least element. */
  lemma {:induction false} MinimumExists(s: set<real>)
    requires s != {}
    ensures exists m :: m in s && forall y :: y in s ==> m <= y
    decreases |s|
  {
    if forall y :: y !in s {
      assert false;
    }
    var x :| x in s;
    if !forall y :: y in s ==> x <= y {
      var y :| y in s && y < x;
      assert y in s - {x};
      MinimumExists(s - {x});
      var r :| r in s - {x} && forall y :: y in s - {x} ==> r <= y;
      LeastOfTwo(s, x, r);
    }
  }

  lemma LeastOfTwo(s: set<real>, x: real, r: real)
    requires x in s && r in s - {x} && forall y :: y in s - {x} ==> r <= y
    ensures var m := if x < r then x else r; m in s && forall y :: y in s ==> m <= y
  {
    forall y | y in s
      ensures (if x < r then x else r) <= y
    {
      if y != x {
        assert y in s - {x};
      }
    }
  }

  /** The least key followed by the others in ascending order is the whole set in
      ascending order. */
  lemma LeastFirst(s: set<real>, m: real, rest: seq<real>)
    requires m in s && forall y :: y in s ==> m <= y
    requires StrictlyAscending(rest)
    requires forall i :: 0 <= i < |rest| ==> rest[i] in s - {m}
    requires forall x :: x in s - {m} ==> x in rest
    ensures StrictlyAscending([m] + rest)
    ensures forall i :: 0 <= i < |[m] + rest| ==> ([m] + rest)[i] in s
    ensures forall x :: x in s ==> x in [m] + rest
  {
    var r := [m] + rest;
    forall i, j | 0 <= i < j < |r|
      ensures r[i] < r[j]
    {
      assert r[j] == rest[j - 1] && r[j] in s - {m};
      if i > 0 {
        assert r[i] == rest[i - 1];
      }
    }
    forall x | x in s
      ensures x in r
    {
      if x != m {
        assert x in s - {m};
        var k :| 0 <= k < |rest| && rest[k] == x;
        assert r[k + 1] == x;
      }
    }
  }

  /** `sorted(keys)`: the keys of a dictionary in ascending order. */
  function SortedKeys(s: set<real>): (ks: seq<real>)
    ensures StrictlyAscending(ks)
    ensures forall i :: 0 <= i < |ks| ==> ks[i] in s
    ensures forall x :: x in s ==> x in ks
    decreases |s|
  {
    if s == {} then []
    else
      MinimumExists(s);
      var m :| m in s && forall y :: y in s ==> m <= y;
      var rest := SortedKeys(s - {m});
      LeastFirst(s, m, rest);
      [m] + rest
  }
}
