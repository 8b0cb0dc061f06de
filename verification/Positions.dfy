/** Contiguity of migration positions, and the number reported when one is missing. */
module Positions {
  import opened Common

  /** The numbers 1 to n, where n is how many there are, each exactly once. */
  ghost predicate OneToN(ps: seq<int>) {
    forall k :: multiset(ps)[k] == if 1 <= k <= |ps| then 1 else 0
  }

  ghost predicate UsedTwice(ps: seq<int>, d: int) {
    exists i, j :: 0 <= i < j < |ps| && ps[i] == d && ps[j] == d
  }

  ghost predicate IsLeastAbsent(ps: seq<int>, g: int) {
    && 1 <= g && g !in ps
    && forall k :: 1 <= k < g ==> k in ps
  }

  /** s lists the positions in ascending order, as any sort leaves them. */
  ghost predicate Arranges(s: seq<int>, ps: seq<int>) {
    Sorted(s) && multiset(s) == multiset(ps)
  }

  /** The first index that does not hold its own number plus one. */
  function FirstMismatch(s: seq<int>, i: nat): (j: nat)
    requires i <= |s|
    ensures i <= j <= |s|
    ensures forall k :: i <= k < j ==> s[k] == k + 1
    ensures j < |s| ==> s[j] != j + 1
    decreases |s| - i
  {
    if i < |s| && s[i] == i + 1 then FirstMismatch(s, i + 1) else i
  }

  function Upto(n: nat): (s: seq<int>)
    ensures |s| == n && forall i :: 0 <= i < n ==> s[i] == i + 1
  {
    if n == 0 then [] else Upto(n - 1) + [n]
  }

  lemma AppendCount(s: seq<int>, x: int, k: int)
    ensures multiset(s + [x])[k] == multiset(s)[k] + if k == x then 1 else 0
  {
    assert multiset(s + [x]) == multiset(s) + multiset{x};
  }

  lemma {:induction false} UptoCount(n: nat, k: int)
    ensures multiset(Upto(n))[k] == if 1 <= k <= n then 1 else 0
  {
    if n > 0 {
      UptoCount(n - 1, k);
      AppendCount(Upto(n - 1), n, k);
    }
  }

  lemma ArrangedLength(s: seq<int>, ps: seq<int>)
    requires Arranges(s, ps)
    ensures |s| == |ps|
  {
    assert |multiset(s)| == |s| && |multiset(ps)| == |ps|;
  }

  lemma UptoIsOneToN(n: nat)
    ensures OneToN(Upto(n))
  {
    forall k ensures multiset(Upto(n))[k] == if 1 <= k <= n then 1 else 0 {
      UptoCount(n, k);
    }
  }

  lemma OneToNIsUpto(s: seq<int>)
    requires Sorted(s) && OneToN(s)
    ensures s == Upto(|s|)
  {
    var upto := Upto(|s|);
    forall k ensures multiset(s)[k] == multiset(upto)[k] {
      UptoCount(|s|, k);
    }
    assert multiset(s) == multiset(upto);
    SortedIsUnique(s, upto);
  }

  /** The check over the sorted list decides contiguity. */
  lemma NoMismatchIsOneToN(s: seq<int>, ps: seq<int>)
    requires Arranges(s, ps)
    ensures |s| == |ps|
    ensures OneToN(ps) <==> FirstMismatch(s, 0) == |s|
  {
    ArrangedLength(s, ps);
    assert OneToN(ps) <==> OneToN(s);
    if OneToN(s) {
      OneToNIsUpto(s);
    }
    if FirstMismatch(s, 0) == |s| {
      assert s == Upto(|s|);
      UptoIsOneToN(|s|);
    }
  }

  lemma {:induction false} CountedTwice(ps: seq<int>, d: int)
    ensures multiset(ps)[d] >= 1 <==> d in ps
    ensures multiset(ps)[d] >= 2 <==> UsedTwice(ps, d)
  {
    if ps != [] {
      var last := |ps| - 1;
      var front := ps[..last];
      assert ps == front + [ps[last]];
      CountedTwice(front, d);
      if UsedTwice(ps, d) {
        var i, j :| 0 <= i < j < |ps| && ps[i] == d && ps[j] == d;
        assert front[i] == d;
        assert j < last ==> front[j] == d;
      }
      if multiset(ps)[d] >= 2 {
        if ps[last] == d {
          var i :| 0 <= i < |front| && front[i] == d;
          assert ps[i] == d;
        } else {
          var i, j :| 0 <= i < j < |front| && front[i] == d && front[j] == d;
          assert ps[i] == d && ps[j] == d;
        }
      }
    }
  }

  lemma SameCounts(ps: seq<int>, s: seq<int>, d: int)
    requires multiset(ps) == multiset(s)
    ensures d in ps <==> d in s
    ensures UsedTwice(ps, d) <==> UsedTwice(s, d)
  {
    CountedTwice(ps, d);
    CountedTwice(s, d);
  }

  /** In a sorted list, a number present beyond its place is pushed there by a duplicate. */
  lemma DuplicateBeforeMismatch(s: seq<int>)
    requires Sorted(s) && forall i :: 0 <= i < |s| ==> 1 <= s[i]
    requires FirstMismatch(s, 0) < |s|
    ensures var k := FirstMismatch(s, 0) + 1;
            k in s ==> k >= 2 && UsedTwice(s, k - 1)
  {
    var k := FirstMismatch(s, 0) + 1;
    if k in s {
      var j :| 0 <= j < |s| && s[j] == k;
      assert j != k - 1 && k - 1 <= j;
      assert s[k - 1] <= s[j];
      assert 2 <= k && s[k - 2] == k - 1 && s[k - 1] == k - 1;
    }
  }

  lemma NoDuplicateBelowMismatch(s: seq<int>, d: int)
    requires Sorted(s) && 1 <= d < FirstMismatch(s, 0)
    ensures d in s && !UsedTwice(s, d)
  {
    assert s[d - 1] == d && s[d] == d + 1;
    forall i, j | 0 <= i < j < |s|
      ensures s[i] != d || s[j] != d
    {
      if j < d { assert s[i] == i + 1; } else { assert s[d] <= s[j]; }
    }
  }

  /**
   The number k reported for a non-contiguous list, against the least number g that no
   file has: they agree exactly when no position d with d + 1 < g is used twice.
   */
  lemma ReportedNumber(s: seq<int>, ps: seq<int>, g: int)
    requires Arranges(s, ps) && forall i :: 0 <= i < |ps| ==> 1 <= ps[i]
    requires !OneToN(ps) && IsLeastAbsent(ps, g)
    ensures FirstMismatch(s, 0) + 1 == g <==> !exists d :: 1 <= d && d + 1 < g && UsedTwice(ps, d)
  {
    var k := FirstMismatch(s, 0) + 1;
    NoMismatchIsOneToN(s, ps);
    AllAtLeastOne(s, ps);
    SameCounts(ps, s, g);
    forall d | 1 <= d < k
      ensures d in s
    {
      assert s[d - 1] == d;
    }
    assert k <= g;
    if k < g {
      SameCounts(ps, s, k);
      DuplicateBeforeMismatch(s);
      SameCounts(ps, s, k - 1);
      assert UsedTwice(ps, k - 1);
    } else {
      forall d | 1 <= d && d + 1 < g
        ensures !UsedTwice(ps, d)
      {
        NoDuplicateBelowMismatch(s, d);
        SameCounts(ps, s, d);
      }
    }
  }

  lemma AllAtLeastOne(s: seq<int>, ps: seq<int>)
    requires multiset(s) == multiset(ps) && forall i :: 0 <= i < |ps| ==> 1 <= ps[i]
    ensures forall i :: 0 <= i < |s| ==> 1 <= s[i]
  {
    forall i | 0 <= i < |s|
      ensures 1 <= s[i]
    {
      SameCounts(ps, s, s[i]);
    }
  }

  /** With distinct positions the report is always the least missing number. */
  lemma DistinctReport(s: seq<int>, ps: seq<int>)
    requires Arranges(s, ps) && forall i :: 0 <= i < |ps| ==> 1 <= ps[i]
    requires forall i, j :: 0 <= i < j < |ps| ==> ps[i] != ps[j]
    requires !OneToN(ps)
    ensures IsLeastAbsent(ps, FirstMismatch(s, 0) + 1)
  {
    var k := FirstMismatch(s, 0) + 1;
    NoMismatchIsOneToN(s, ps);
    AllAtLeastOne(s, ps);
    forall d | 1 <= d < k
      ensures d in ps
    {
      assert s[d - 1] == d;
      SameCounts(ps, s, d);
    }
    DuplicateBeforeMismatch(s);
    SameCounts(ps, s, k);
    SameCounts(ps, s, k - 1);
    assert !UsedTwice(ps, k - 1);
  }

  /** The report can name a position that is present: one duplicate shifts the count. */
  lemma DuplicateMisleadsTheReport()
    ensures var ps := [1, 1, 2];
            Arranges(ps, ps) && FirstMismatch(ps, 0) + 1 == 2 && 2 in ps && IsLeastAbsent(ps, 3)
  {
    var ps := [1, 1, 2];
    assert FirstMismatch(ps, 1) == 1;
    assert ps[0] == 1 && ps[2] == 2;
  }
}
