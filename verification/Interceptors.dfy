/** `SortInterceptors` and the chain builders on top of it. */
module Interceptors {
  import opened Common

  /** A pointer to a weighted interceptor, which may be nil. */
  datatype Item = Nil | Interceptor(weight: nat, id: int)

  function Weight(x: Item): int {
    if x.Nil? then 0 else x.weight
  }

  predicate AdjacentNils(list: seq<Item>) {
    exists i :: 0 <= i < |list| - 1 && list[i].Nil? && list[i + 1].Nil?
  }

  /** How many nils stand directly before index q, that is, the offset of q in its run of nils. */
  function NilsBefore(list: seq<Item>, q: nat): nat
    requires q <= |list|
  {
    if q > 0 && list[q - 1].Nil? then 1 + NilsBefore(list, q - 1) else 0
  }

  /** The indices that the removal loop keeps when it inspects index p next. */
  function KeptIndices(list: seq<Item>, p: nat): (kept: seq<nat>)
    ensures forall i :: 0 <= i < |kept| ==> p <= kept[i] < |list|
    decreases |list| - p
  {
    if p >= |list| then []
    else if list[p].Nil? then
      (if p + 1 < |list| then [p + 1] else []) + KeptIndices(list, p + 2)
    else [p] + KeptIndices(list, p + 1)
  }

  function Kept(list: seq<Item>, p: nat): (kept: seq<Item>)
    decreases |list| - p
  {
    if p >= |list| then []
    else if list[p].Nil? then
      (if p + 1 < |list| then [list[p + 1]] else []) + Kept(list, p + 2)
    else [list[p]] + Kept(list, p + 1)
  }

  /** The items are those at the given indices, in the same order. */
  ghost predicate ItemsAt(list: seq<Item>, indices: seq<nat>, items: seq<Item>) {
    && |items| == |indices|
    && forall i :: 0 <= i < |indices| ==> indices[i] < |list| && items[i] == list[indices[i]]
  }

  lemma ItemsAtPrepend(list: seq<Item>, q: nat, indices: seq<nat>, items: seq<Item>)
    requires q < |list| && ItemsAt(list, indices, items)
    ensures ItemsAt(list, [q] + indices, [list[q]] + items)
  {
  }

  lemma {:induction false} KeptByIndex(list: seq<Item>, p: nat)
    ensures ItemsAt(list, KeptIndices(list, p), Kept(list, p))
    decreases |list| - p
  {
    if p < |list| {
      var next := if list[p].Nil? then p + 2 else p + 1;
      KeptByIndex(list, next);
      if next <= |list| {
        ItemsAtPrepend(list, next - 1, KeptIndices(list, next), Kept(list, next));
      } else {
        assert KeptIndices(list, next) == [] && Kept(list, next) == [];
      }
    }
  }

  /** Whether the removal loop keeps index q when it inspects index p next. */
  predicate Keeps(list: seq<Item>, p: nat, q: nat)
    requires q < |list|
    decreases |list| - p
  {
    if p >= |list| then false
    else if list[p].Nil? then q == p + 1 || Keeps(list, p + 2, q)
    else q == p || Keeps(list, p + 1, q)
  }

  lemma {:induction false} KeepsIsMembership(list: seq<Item>, p: nat, q: nat)
    requires q < |list|
    ensures q in KeptIndices(list, p) <==> Keeps(list, p, q)
    decreases |list| - p
  {
    if p < |list| {
      KeepsIsMembership(list, if list[p].Nil? then p + 2 else p + 1, q);
    }
  }

  /** Whether q stands at an odd offset in its run of nils. */
  predicate OddOffset(list: seq<Item>, q: nat)
    requires q <= |list|
  {
    q > 0 && list[q - 1].Nil? && !OddOffset(list, q - 1)
  }

  lemma {:induction false} OddOffsetIsParity(list: seq<Item>, q: nat)
    requires q <= |list|
    ensures OddOffset(list, q) <==> NilsBefore(list, q) % 2 == 1
  {
    if q > 0 {
      OddOffsetIsParity(list, q - 1);
    }
  }

  lemma {:induction false} KeptIffOddOffset(list: seq<Item>, p: nat, q: nat)
    requires p <= q < |list| && !OddOffset(list, p)
    ensures Keeps(list, p, q) <==> list[q].Interceptor? || OddOffset(list, q)
    decreases |list| - p
  {
    if list[p].Nil? {
      assert OddOffset(list, p + 1);
      if p + 2 <= q {
        assert !OddOffset(list, p + 2);
        KeptIffOddOffset(list, p + 2, q);
      } else {
        KeepsOnlyAhead(list, p + 2, q);
      }
    } else if p < q {
      assert !OddOffset(list, p + 1);
      KeptIffOddOffset(list, p + 1, q);
    }
  }

  lemma {:induction false} KeepsOnlyAhead(list: seq<Item>, p: nat, q: nat)
    requires q < |list| && q < p
    ensures !Keeps(list, p, q)
    decreases |list| - p
  {
    if p < |list| {
      KeepsOnlyAhead(list, if list[p].Nil? then p + 2 else p + 1, q);
    }
  }

  /**
   Which items survive: every interceptor, and exactly the nils at odd offsets within
   their run of nils. The loop never looks at the item after a nil it removes.
   */
  lemma SurvivorsExactly(list: seq<Item>, p: nat, q: nat)
    requires p <= q < |list| && NilsBefore(list, p) % 2 == 0
    ensures q in KeptIndices(list, p) <==> list[q].Interceptor? || NilsBefore(list, q) % 2 == 1
  {
    OddOffsetIsParity(list, p);
    OddOffsetIsParity(list, q);
    KeptIffOddOffset(list, p, q);
    KeepsIsMembership(list, p, q);
  }

  function RunLength(list: seq<Item>, p: nat): (r: nat)
    ensures p <= |list| ==> p + r <= |list|
    decreases |list| - p
  {
    if p < |list| && list[p].Nil? then 1 + RunLength(list, p + 1) else 0
  }

  /** Half of every maximal run of nils, rounded up. */
  function Removed(list: seq<Item>, p: nat): nat
    requires p <= |list|
    decreases |list| - p
  {
    if p == |list| then 0
    else if list[p].Nil? then (RunLength(list, p) + 1) / 2 + Removed(list, p + RunLength(list, p))
    else Removed(list, p + 1)
  }

  /** Two nils in a row are one removed and one kept. */
  lemma RemovedPair(list: seq<Item>, p: nat)
    requires p + 1 < |list| && list[p].Nil? && list[p + 1].Nil?
    ensures Removed(list, p) == 1 + Removed(list, p + 2)
  {
    var r := RunLength(list, p + 2);
    assert RunLength(list, p) == 2 + r;
    assert (r + 3) / 2 == 1 + (r + 1) / 2;
  }

  lemma KeptLength(list: seq<Item>, p: nat)
    requires p < |list|
    ensures |Kept(list, p)| == if !list[p].Nil? then 1 + |Kept(list, p + 1)|
                               else (if p + 1 < |list| then 1 else 0) + |Kept(list, p + 2)|
  {
  }

  lemma {:induction false} SurvivorCount(list: seq<Item>, p: nat)
    requires p <= |list|
    ensures |Kept(list, p)| + Removed(list, p) == |list| - p
    decreases |list| - p
  {
    if p < |list| {
      KeptLength(list, p);
      if !list[p].Nil? {
        SurvivorCount(list, p + 1);
      } else if p + 1 == |list| {
        assert RunLength(list, p + 1) == 0;
      } else {
        SurvivorCount(list, p + 2);
        if list[p + 1].Nil? {
          RemovedPair(list, p);
        } else {
          assert RunLength(list, p + 1) == 0;
          assert Removed(list, p) == 1 + Removed(list, p + 1);
        }
      }
    }
  }

  /** A nil is among the survivors exactly if some nil stands at an odd offset of its run. */
  lemma NilSurvivesIff(list: seq<Item>)
    ensures Nil in Kept(list, 0) <==> exists q :: 0 <= q < |list| && list[q].Nil? && OddOffset(list, q)
  {
    KeptByIndex(list, 0);
    var indices := KeptIndices(list, 0);
    forall q | 0 <= q < |list|
      ensures q in indices <==> list[q].Interceptor? || OddOffset(list, q)
    {
      KeptIffOddOffset(list, 0, q);
      KeepsIsMembership(list, 0, q);
    }
    if Nil in Kept(list, 0) {
      var k :| 0 <= k < |Kept(list, 0)| && Kept(list, 0)[k] == Nil;
      assert indices[k] in indices && list[indices[k]].Nil?;
    }
    if q :| 0 <= q < |list| && list[q].Nil? && OddOffset(list, q) {
      var k :| 0 <= k < |indices| && indices[k] == q;
      assert Kept(list, 0)[k] == Nil;
    }
  }

  /** The documented contract, "Any nil items will be removed", holds exactly without adjacent nils. */
  lemma AllNilsRemovedIff(list: seq<Item>)
    ensures Nil !in Kept(list, 0) <==> !AdjacentNils(list)
  {
    NilSurvivesIff(list);
    if q :| 0 <= q < |list| && list[q].Nil? && OddOffset(list, q) {
      assert list[q - 1].Nil? && list[q - 1 + 1].Nil?;
    }
    if i :| 0 <= i < |list| - 1 && list[i].Nil? && list[i + 1].Nil? {
      assert OddOffset(list, i) || OddOffset(list, i + 1);
    }
  }

  /** Two nils leave one behind; with an interceptor beside it, the sort has to compare it. */
  lemma AdjacentNilsSurvive(x: Item)
    requires x.Interceptor?
    ensures Kept([Nil, Nil], 0) == [Nil]
    ensures Kept([Nil, Nil, x], 0) == [Nil, x]
  {
    assert Kept([Nil, Nil], 2) == [] && Kept([Nil, Nil, x], 3) == [];
    assert Kept([Nil, Nil, x], 2) == [x];
  }

  function WithoutNils(list: seq<Item>): seq<Item> {
    if list == [] then []
    else (if list[0].Nil? then [] else [list[0]]) + WithoutNils(list[1..])
  }

  /** No interceptor is lost, duplicated or invented. */
  lemma {:induction false} InterceptorsConserved(list: seq<Item>, p: nat)
    requires p <= |list|
    ensures WithoutNils(Kept(list, p)) == WithoutNils(list[p..])
    decreases |list| - p
  {
    if p < |list| {
      assert list[p..][1..] == list[p + 1..];
      if !list[p].Nil? {
        InterceptorsConserved(list, p + 1);
        assert Kept(list, p)[1..] == Kept(list, p + 1);
      } else if p + 1 < |list| {
        InterceptorsConserved(list, p + 2);
        assert list[p + 1..][1..] == list[p + 2..];
        assert Kept(list, p)[1..] == Kept(list, p + 2);
      }
    }
  }

  lemma {:induction false} NothingToRemove(list: seq<Item>)
    requires Nil !in list
    ensures WithoutNils(list) == list
  {
    if list != [] {
      NothingToRemove(list[1..]);
    }
  }

  /** Occurrences of x at the indices lo up to p, the part of the window the loop has passed. */
  ghost function Count(a: seq<Item>, lo: nat, p: nat, x: Item): nat
    requires lo <= p <= |a|
  {
    if lo == p then 0 else Count(a, lo, p - 1, x) + if a[p - 1] == x then 1 else 0
  }

  lemma {:induction false} CountIsMultiset(a: seq<Item>, lo: nat, p: nat, x: Item)
    requires lo <= p <= |a|
    ensures Count(a, lo, p, x) == multiset(a[lo..p])[x]
  {
    if lo < p {
      CountIsMultiset(a, lo, p - 1, x);
      assert a[lo..p] == a[lo..p - 1] + [a[p - 1]];
    }
  }

  /** Occurrences of x among what the loop keeps when it inspects index p next. */
  ghost function KeptCount(a: seq<Item>, p: nat, x: Item): nat
    decreases |a| - p
  {
    if p >= |a| then 0
    else if !a[p].Nil? then KeptCount(a, p + 1, x) + if a[p] == x then 1 else 0
    else if p + 1 < |a| then KeptCount(a, p + 2, x) + if a[p + 1] == x then 1 else 0
    else 0
  }

  lemma {:induction false} KeptCountIsMultiset(a: seq<Item>, p: nat, x: Item)
    ensures KeptCount(a, p, x) == multiset(Kept(a, p))[x]
    decreases |a| - p
  {
    if p < |a| {
      KeptCountIsMultiset(a, if a[p].Nil? then p + 2 else p + 1, x);
    }
  }

  lemma {:induction false} CountHead(a: seq<Item>, lo: nat, p: nat, x: Item)
    requires lo < p <= |a|
    ensures Count(a, lo, p, x) == Count(a, lo + 1, p, x) + if a[lo] == x then 1 else 0
  {
    if lo + 1 < p {
      CountHead(a, lo, p - 1, x);
    }
  }

  lemma {:induction false} CountOfSame(a: seq<Item>, b: seq<Item>, lo: nat, p: nat, x: Item)
    requires lo <= p <= |a| == |b| && forall k :: lo <= k < p ==> a[k] == b[k]
    ensures Count(a, lo, p, x) == Count(b, lo, p, x)
  {
    if lo < p {
      CountOfSame(a, b, lo, p - 1, x);
    }
  }

  /** What the loop will keep depends only on what it has not passed. */
  lemma {:induction false} KeptLooksAhead(a: seq<Item>, b: seq<Item>, p: nat, x: Item)
    requires |a| == |b| && forall k :: p <= k < |a| ==> a[k] == b[k]
    ensures KeptCount(a, p, x) == KeptCount(b, p, x)
    decreases |a| - p
  {
    if p < |a| {
      KeptLooksAhead(a, b, if a[p].Nil? then p + 2 else p + 1, x);
    }
  }

  ghost function Stop(a: seq<Item>, p: nat): nat {
    if p <= |a| then p else |a|
  }

  /** Passed and still to be kept occurrences together are all that the loop ever keeps. */
  ghost predicate Balanced(a: seq<Item>, lo: nat, p: nat, list: seq<Item>) {
    && lo <= |a| && lo <= p <= |a| + 1
    && forall x :: Count(a, lo, Stop(a, p), x) + KeptCount(a, p, x) == KeptCount(list, 0, x)
  }

  /** The first item moves to p and the window loses its first place. */
  lemma CountShifts(a: seq<Item>, lo: nat, p: nat, x: Item)
    requires lo <= p < |a|
    ensures Count(a[p := a[lo]], lo + 1, p + 1, x) == Count(a, lo, p, x)
  {
    if lo < p {
      CountHead(a, lo, p, x);
      CountOfSame(a, a[p := a[lo]], lo + 1, p, x);
    }
  }

  /** A nil at p is overwritten by the first item, which leaves the window; p + 1 is passed unseen. */
  lemma PassNil(a: seq<Item>, lo: nat, p: nat, list: seq<Item>)
    requires p < |a| && a[p].Nil? && Balanced(a, lo, p, list)
    ensures Balanced(a[p := a[lo]], lo + 1, p + 2, list)
  {
    var b := a[p := a[lo]];
    forall x
      ensures Count(b, lo + 1, Stop(b, p + 2), x) + KeptCount(b, p + 2, x) == KeptCount(list, 0, x)
    {
      CountShifts(a, lo, p, x);
      KeptLooksAhead(a, b, p + 2, x);
    }
  }

  lemma PassItem(a: seq<Item>, lo: nat, p: nat, list: seq<Item>)
    requires p < |a| && !a[p].Nil? && Balanced(a, lo, p, list)
    ensures Balanced(a, lo, p + 1, list)
  {
    forall x
      ensures Count(a, lo, Stop(a, p + 1), x) + KeptCount(a, p + 1, x) == KeptCount(list, 0, x)
    {
    }
  }

  lemma AllPassed(a: seq<Item>, lo: nat, p: nat, list: seq<Item>)
    requires |a| <= p && Balanced(a, lo, p, list)
    ensures multiset(a[lo..]) == multiset(Kept(list, 0))
  {
    forall x
      ensures multiset(a[lo..])[x] == multiset(Kept(list, 0))[x]
    {
      CountIsMultiset(a, lo, |a|, x);
      assert a[lo..] == a[lo..|a|];
      KeptCountIsMultiset(list, 0, x);
    }
  }

  /** The loop over a shrinking window: the first lo items of the copy have been cut off. */
  method RemoveNils(a: array<Item>) returns (lo: nat)
    modifies a
    ensures lo <= a.Length
    ensures multiset(a[lo..]) == multiset(Kept(old(a[..]), 0))
  {
    ghost var list, now := a[..], a[..];
    lo := 0;
    var i := 0;
    while i < a.Length - lo
      invariant a[..] == now && Balanced(now, lo, lo + i, list)
      decreases a.Length + 1 - lo - i
    {
      if a[lo + i].Nil? {
        PassNil(now, lo, lo + i, list);
        a[lo + i] := a[lo];
        now := now[lo + i := now[lo]];
        lo := lo + 1;
      } else {
        PassItem(now, lo, lo + i, list);
      }
      i := i + 1;
    }
    AllPassed(now, lo, lo + i, list);
    assert a[lo..] == now[lo..];
  }

  /** Ascending in the registered weights themselves. */
  ghost predicate AscendingWeights(list: seq<Item>) {
    forall i, j :: 0 <= i < j < |list| && list[i].Interceptor? && list[j].Interceptor? ==> list[i].weight <= list[j].weight
  }

  lemma SortedIsAscending(list: seq<Item>)
    requires Sorted(Keys(list, Weight))
    ensures AscendingWeights(list)
  {
    forall i, j | 0 <= i < j < |list| && list[i].Interceptor? && list[j].Interceptor?
      ensures list[i].weight <= list[j].weight
    {
      assert Keys(list, Weight)[i] <= Keys(list, Weight)[j];
    }
  }

  /** The comparison in the sort dereferences its operands. */
  datatype Outcome = Returned(length: nat) | Panicked

  /**
   The sorted survivors are stored in the front of the caller's list, whose tail stays as
   it was; a surviving nil that the sort has to compare is a nil dereference, in which
   case the caller's list is untouched.
   */
  method SortInterceptors(list: array<Item>) returns (r: Outcome)
    modifies list
    ensures var kept := Kept(old(list[..]), 0);
            && (r.Panicked? <==> Nil in kept && |kept| >= 2)
            && (r.Panicked? ==> list[..] == old(list[..]))
            && (r.Returned? ==>
                  && r.length == |kept| <= list.Length
                  && multiset(list[..r.length]) == multiset(kept)
                  && Sorted(Keys(list[..r.length], Weight))
                  && AscendingWeights(list[..r.length])
                  && list[r.length..] == old(list[r.length..]))
  {
    var iList := CopyOf(list);
    var lo := RemoveNils(iList);
    var window := iList[lo..];
    SurvivorCount(list[..], 0);
    SameMembers(window, Kept(list[..], 0));
    if |window| >= 2 && Nil in window {
      return Panicked;
    }
    var sorted := SortByKey(window, Weight);
    SameMembers(sorted, window);
    SortedIsAscending(sorted);
    WriteBack(list, sorted);
    r := Returned(|sorted|);
  }

  method CopyOf(list: array<Item>) returns (copy: array<Item>)
    ensures fresh(copy) && copy[..] == list[..]
  {
    copy := new Item[list.Length](i requires 0 <= i < list.Length reads list => list[i]);
  }

  method WriteBack(list: array<Item>, sorted: seq<Item>)
    requires |sorted| <= list.Length
    modifies list
    ensures list[..|sorted|] == sorted && list[|sorted|..] == old(list[|sorted|..])
  {
    for i := 0 to |sorted|
      invariant forall k :: 0 <= k < i ==> list[k] == sorted[k]
      invariant forall k :: i <= k < list.Length ==> list[k] == old(list[k])
    {
      list[i] := sorted[i];
    }
  }

  lemma SameMembers(xs: seq<Item>, ys: seq<Item>)
    requires multiset(xs) == multiset(ys)
    ensures |xs| == |ys| && (Nil in xs <==> Nil in ys)
  {
    assert |multiset(xs)| == |xs| && |multiset(ys)| == |ys|;
    assert Nil in xs <==> Nil in multiset(xs);
    assert Nil in ys <==> Nil in multiset(ys);
  }

  /** Without adjacent nils the sorted survivors are exactly the registered interceptors. */
  lemma SurvivorsAreTheInterceptors(list: seq<Item>, front: seq<Item>)
    requires !AdjacentNils(list) && multiset(front) == multiset(Kept(list, 0))
    ensures Nil !in front && multiset(front) == multiset(WithoutNils(list))
  {
    AllNilsRemovedIff(list);
    SameMembers(front, Kept(list, 0));
    InterceptorsConserved(list, 0);
    NothingToRemove(Kept(list, 0));
    assert list[0..] == list;
  }

  lemma {:induction false} NothingRemoved(list: seq<Item>, p: nat)
    requires p <= |list| && Nil !in list
    ensures Kept(list, p) == list[p..]
    decreases |list| - p
  {
    if p < |list| {
      NothingRemoved(list, p + 1);
    }
  }

  /**
   Calling the function again on what it returned gives the same sequence of weights,
   although items of equal weight may change places.
   */
  lemma SecondCallSameWeights(front: seq<Item>, again: seq<Item>)
    requires Nil !in front && Sorted(Keys(front, Weight))
    requires multiset(again) == multiset(Kept(front, 0)) && Sorted(Keys(again, Weight))
    ensures Keys(again, Weight) == Keys(front, Weight)
    ensures |again| == |front| && Nil !in again && AscendingWeights(again)
    ensures forall i :: 0 <= i < |again| ==> again[i].Interceptor? && front[i].Interceptor? && again[i].weight == front[i].weight
  {
    NothingRemoved(front, 0);
    assert front[0..] == front;
    KeysOfPermutation(again, front, Weight);
    SortedIsUnique(Keys(again, Weight), Keys(front, Weight));
    SameMembers(again, front);
    SortedIsAscending(again);
    forall i | 0 <= i < |again|
      ensures again[i].Interceptor? && front[i].Interceptor? && again[i].weight == front[i].weight
    {
      assert again[i] in again && front[i] in front;
      assert Keys(again, Weight)[i] == Keys(front, Weight)[i];
    }
  }

  /** The loop that collects the interceptors; reading a field of nil panics. */
  method Ids(front: seq<Item>) returns (chain: Option<seq<int>>)
    ensures chain.None? <==> Nil in front
    ensures chain.Some? ==> |chain.value| == |front|
    ensures chain.Some? ==> forall i :: 0 <= i < |front| ==> front[i].Interceptor? && chain.value[i] == front[i].id
  {
    var ids := [];
    for i := 0 to |front|
      invariant |ids| == i
      invariant forall k :: 0 <= k < i ==> front[k].Interceptor? && ids[k] == front[k].id
    {
      if front[i].Nil? {
        return None;
      }
      ids := ids + [front[i].id];
    }
    chain := Some(ids);
  }

  /**
   The chain builders dereference every survivor. They succeed exactly when no two nils
   are adjacent, and the chain then holds every registered interceptor in ascending
   order of weight.
   */
  method BuildChain(list: array<Item>) returns (chain: Option<seq<int>>)
    modifies list
    ensures chain.None? <==> AdjacentNils(old(list[..]))
    ensures chain.Some? ==>
              var ids := chain.value;
              && |ids| <= list.Length
              && multiset(list[..|ids|]) == multiset(WithoutNils(old(list[..])))
              && Sorted(Keys(list[..|ids|], Weight))
              && AscendingWeights(list[..|ids|])
              && forall i :: 0 <= i < |ids| ==> list[i].Interceptor? && ids[i] == list[i].id
  {
    ghost var given := list[..];
    AllNilsRemovedIff(given);
    var sorted := SortInterceptors(list);
    if sorted.Panicked? {
      return None;
    }
    var front := list[..sorted.length];
    SameMembers(front, Kept(given, 0));
    chain := Ids(front);
    if chain.Some? {
      SurvivorsAreTheInterceptors(given, front);
    }
  }
}
