/** Increasing sequences of integers. */
module Sequences {

  ghost predicate Increasing(s: seq<int>) {
    forall i, j :: 0 <= i < j < |s| ==> s[i] < s[j]
  }

  /** An element of two increasing lists that have the same elements is equally far into both. */
  lemma {:induction false} SameElementsSameAt(s: seq<int>, t: seq<int>, i: nat)
    requires Increasing(s) && Increasing(t)
    requires forall x :: x in s <==> x in t
    requires i < |s|
    ensures i < |t| && s[i] == t[i]
  {
    if i > 0 {
      SameElementsSameAt(s, t, i - 1);
    }
    assert s[i] in s;
    var k :| 0 <= k < |t| && t[k] == s[i];
    if k > i {
      assert t[i] in t;
      var m :| 0 <= m < |s| && s[m] == t[i];
      assert m < i;
      SameElementsSameAt(s, t, m);
    }
  }

  lemma SameElementsSameOrder(s: seq<int>, t: seq<int>)
    requires Increasing(s) && Increasing(t)
    requires forall x :: x in s <==> x in t
    ensures s == t
  {
    forall i | 0 <= i < |s|
      ensures i < |t| && s[i] == t[i]
    {
      SameElementsSameAt(s, t, i);
    }
    if s != [] {
      SameElementsSameAt(s, t, |s| - 1);
    }
    if |s| < |t| {
      SameElementsSameAt(t, s, |s|);
    }
  }
}
