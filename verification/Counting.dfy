// Counting distinct ranks.

module Counting {

  function Below(n: nat): (r: set<nat>)
    ensures |r| == n && forall x :: x in r <==> 0 <= x < n
  {
    if n == 0 then {} else Below(n - 1) + {n - 1}
  }

  ghost predicate Distinct<T>(s: seq<T>)
  {
    forall i, j :: 0 <= i < j < |s| ==> s[i] != s[j]
  }

  lemma {:induction false} SubsetCardinality<T>(small: set<T>, big: set<T>)
    requires small <= big
    ensures |small| <= |big|
    ensures |small| == |big| ==> small == big
  {
    if small != {} {
      var x :| x in small;
      SubsetCardinality(small - {x}, big - {x});
    }
  }

  lemma {:induction false} DistinctCardinality<T>(s: seq<T>)
    requires Distinct(s)
    ensures |set x | x in s| == |s|
  {
    var elements := set x | x in s;
    if s == [] {
      assert elements == {};
    } else {
      var k := |s| - 1;
      DistinctCardinality(s[..k]);
      assert s == s[..k] + [s[k]] && s[k] !in s[..k];
      assert elements == (set x | x in s[..k]) + {s[k]};
    }
  }

  /** Distinct numbers below `n` are at most `n` many, and `n` many exactly when none is missing. */
  lemma DistinctFill(s: seq<nat>, n: nat)
    requires Distinct(s) && forall i :: 0 <= i < |s| ==> s[i] < n
    ensures |s| <= n
    ensures |s| == n <==> forall x :: 0 <= x < n ==> x in s
  {
    var elements := set x | x in s;
    DistinctCardinality(s);
    assert elements <= Below(n);
    SubsetCardinality(elements, Below(n));
    if forall x :: 0 <= x < n ==> x in s {
      assert elements == Below(n);
    }
    if |s| == n {
      forall x | 0 <= x < n
        ensures x in s
      {
        assert x in Below(n);
      }
    }
  }
}
