// Distinct indices below a bound, counted: n of them are all of them.

module Counting {

  ghost predicate Distinct(list: seq<int>) { forall i, j :: 0 <= i < j < |list| ==> list[i] != list[j] }

  // The indices below n.
  function Below(n: nat): (s: set<int>)
    ensures |s| == n && forall x :: x in s <==> 0 <= x < n
  {
    if n == 0 then {} else Below(n - 1) + {n - 1}
  }

  lemma {:induction false} DistinctSize(list: seq<int>)
    requires Distinct(list)
    ensures |set x | x in list| == |list|
  {
    if list != [] {
      var rest := list[..|list| - 1];
      DistinctSize(rest);
      assert (set x | x in list) == (set x | x in rest) + {list[|list| - 1]};
    }
  }

  lemma Subset(a: set<int>, b: set<int>)
    requires a <= b
    ensures |a| <= |b| && (|a| == |b| ==> a == b)
  {
    assert b == a + (b - a);
  }

  // Distinct indices below n: all of them are listed exactly when there are n.
  lemma AllListed(list: seq<int>, n: nat)
    requires Distinct(list) && forall x :: x in list ==> 0 <= x < n
    ensures |list| <= n
    ensures |list| == n <==> forall i :: 0 <= i < n ==> i in list
  {
    var listed, all := (set x | x in list), Below(n);
    DistinctSize(list);
    Subset(listed, all);
    if forall i :: 0 <= i < n ==> i in list { assert listed == all; }
    if listed == all { forall i | 0 <= i < n ensures i in list { assert i in all; } }
  }
}
