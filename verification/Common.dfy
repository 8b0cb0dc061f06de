/** Optional values and results, Go's 64-bit integers, and sorted sequences of numbers. */
module Common {

  datatype Option<+T> = None | Some(value: T)

  datatype Result<+T, +E> = Ok(value: T) | Err(error: E)

  const TWO63: int := 0x8000_0000_0000_0000
  const TWO64: int := 0x1_0000_0000_0000_0000

  function PowerOfTwo(n: nat): nat {
    if n == 0 then 1 else 2 * PowerOfTwo(n - 1)
  }

  lemma EightMoreBits(n: nat)
    ensures PowerOfTwo(n + 8) == 0x100 * PowerOfTwo(n)
  {
    assert PowerOfTwo(n + 2) == 4 * PowerOfTwo(n);
    assert PowerOfTwo(n + 4) == 4 * PowerOfTwo(n + 2);
    assert PowerOfTwo(n + 6) == 4 * PowerOfTwo(n + 4);
    assert PowerOfTwo(n + 8) == 4 * PowerOfTwo(n + 6);
  }

  /** The widths of the two integer types. */
  lemma WordSizes()
    ensures TWO63 == PowerOfTwo(63) && TWO64 == PowerOfTwo(64)
  {
    EightMoreBits(0);
    EightMoreBits(8);
    EightMoreBits(16);
    EightMoreBits(24);
    EightMoreBits(32);
    EightMoreBits(40);
    EightMoreBits(48);
    EightMoreBits(56);
    assert PowerOfTwo(64) == 2 * PowerOfTwo(63);
  }

  type uint64 = x: int | 0 <= x < TWO64

  type int64 = x: int | -TWO63 <= x < TWO63

  /** Go's `int(x)` for a uint64 x. */
  function ToSigned(x: uint64): (r: int64)
    ensures 0 <= r <==> x < TWO63
  {
    if x < TWO63 then x else x - TWO64
  }

  /** Go's `uint64(x)` for an int64 x. */
  function ToUnsigned(x: int64): (r: uint64)
    ensures ToSigned(r) == x
  {
    if x < 0 then x + TWO64 else x
  }

  /** Go's `x - 1` on 64 signed bits. */
  function Pred(x: int64): int64 {
    if x == -TWO63 then TWO63 - 1 else x - 1
  }

  ghost predicate Sorted(s: seq<int>) {
    forall i, j :: 0 <= i < j < |s| ==> s[i] <= s[j]
  }

  lemma SortedStartsWithLeast(s: seq<int>, x: int)
    requires Sorted(s) && x in multiset(s)
    ensures s != [] && s[0] <= x
  {
    var i :| 0 <= i < |s| && s[i] == x;
  }

  lemma Tail(s: seq<int>)
    requires s != [] && Sorted(s)
    ensures Sorted(s[1..]) && s == [s[0]] + s[1..]
    ensures multiset(s[1..]) == multiset(s) - multiset{s[0]}
    ensures s[0] in multiset(s)
  {
    assert s == [s[0]] + s[1..];
  }

  /** A sorted arrangement of a multiset of numbers is unique. */
  lemma {:induction false} SortedIsUnique(a: seq<int>, b: seq<int>)
    requires Sorted(a) && Sorted(b)
    requires multiset(a) == multiset(b)
    ensures a == b
  {
    if a == [] {
      assert |multiset(b)| == |b|;
    } else {
      Tail(a);
      SortedStartsWithLeast(b, a[0]);
      Tail(b);
      SortedStartsWithLeast(a, b[0]);
      var a', b' := a[1..], b[1..];
      assert a[0] == b[0];
      SortedIsUnique(a', b');
    }
  }

  lemma InsertIntoSorted(s: seq<int>, j: nat, x: int)
    requires j <= |s| && Sorted(s)
    requires 0 < j ==> s[j - 1] <= x
    requires j < |s| ==> x <= s[j]
    ensures Sorted(s[..j] + [x] + s[j..])
  {
    var r := s[..j] + [x] + s[j..];
    forall a, b | 0 <= a < b < |r|
      ensures r[a] <= r[b]
    {
      assert r[a] == if a < j then s[a] else if a == j then x else s[a - 1];
      assert r[b] == if b < j then s[b] else if b == j then x else s[b - 1];
    }
  }

  lemma InsertMultiset<T>(s: seq<T>, j: nat, x: T)
    requires j <= |s|
    ensures multiset(s[..j] + [x] + s[j..]) == multiset(s) + multiset{x}
  {
    assert s == s[..j] + s[j..];
  }

  function Keys<T>(xs: seq<T>, key: T -> int): (ks: seq<int>)
    ensures |ks| == |xs| && forall i :: 0 <= i < |ks| ==> ks[i] == key(xs[i])
  {
    seq(|xs|, i requires 0 <= i < |xs| => key(xs[i]))
  }

  lemma InsertByKey<T>(xs: seq<T>, key: T -> int, j: nat, x: T)
    requires j <= |xs| && Sorted(Keys(xs, key))
    requires 0 < j ==> key(xs[j - 1]) <= key(x)
    requires j < |xs| ==> key(x) <= key(xs[j])
    ensures var ys := xs[..j] + [x] + xs[j..];
            && Sorted(Keys(ys, key))
            && multiset(Keys(ys, key)) == multiset(Keys(xs, key)) + multiset{key(x)}
            && multiset(ys) == multiset(xs) + multiset{x}
  {
    var ks := Keys(xs, key);
    assert Keys(xs[..j] + [x] + xs[j..], key) == ks[..j] + [key(x)] + ks[j..];
    InsertIntoSorted(ks, j, key(x));
    InsertMultiset(ks, j, key(x));
    InsertMultiset(xs, j, x);
  }

  /**
   `sort.Sort`: the same items in ascending order of their keys. Nothing is promised about
   the order of items with equal keys, because the sort is not stable.
   */
  method SortByKey<T>(xs: seq<T>, key: T -> int) returns (ys: seq<T>)
    ensures multiset(ys) == multiset(xs)
    ensures Sorted(Keys(ys, key))
    ensures multiset(Keys(ys, key)) == multiset(Keys(xs, key))
  {
    ys := [];
    for n := 0 to |xs|
      invariant multiset(ys) == multiset(xs[..n])
      invariant Sorted(Keys(ys, key))
      invariant multiset(Keys(ys, key)) == multiset(Keys(xs[..n], key))
    {
      var j := InsertionPoint(ys, key, xs[n]);
      InsertByKey(ys, key, j, xs[n]);
      InsertByKeyAtEnd(xs, key, n);
      ys := ys[..j] + [xs[n]] + ys[j..];
    }
    assert xs[..|xs|] == xs;
  }

  lemma InsertByKeyAtEnd<T>(xs: seq<T>, key: T -> int, n: nat)
    requires n < |xs|
    ensures multiset(xs[..n + 1]) == multiset(xs[..n]) + multiset{xs[n]}
    ensures multiset(Keys(xs[..n + 1], key)) == multiset(Keys(xs[..n], key)) + multiset{key(xs[n])}
  {
    assert xs[..n + 1] == xs[..n] + [xs[n]];
    assert Keys(xs[..n + 1], key) == Keys(xs[..n], key) + [key(xs[n])];
  }

  method InsertionPoint<T>(ys: seq<T>, key: T -> int, x: T) returns (j: nat)
    ensures j <= |ys|
    ensures 0 < j ==> key(ys[j - 1]) <= key(x)
    ensures j < |ys| ==> key(x) <= key(ys[j])
  {
    j := 0;
    while j < |ys| && key(ys[j]) < key(x)
      invariant j <= |ys|
      invariant 0 < j ==> key(ys[j - 1]) <= key(x)
    {
      j := j + 1;
    }
  }

  function Without<T>(xs: seq<T>, j: nat): seq<T>
    requires j < |xs|
  {
    xs[..j] + xs[j + 1..]
  }

  lemma WithoutMultiset<T>(xs: seq<T>, j: nat)
    requires j < |xs|
    ensures multiset(xs) == multiset(Without(xs, j)) + multiset{xs[j]}
  {
    assert xs == xs[..j] + [xs[j]] + xs[j + 1..];
  }

  lemma WithoutKeys<T>(xs: seq<T>, key: T -> int, j: nat)
    requires j < |xs|
    ensures multiset(Keys(xs, key)) == multiset(Keys(Without(xs, j), key)) + multiset{key(xs[j])}
  {
    assert Keys(Without(xs, j), key) == Without(Keys(xs, key), j);
    WithoutMultiset(Keys(xs, key), j);
  }

  lemma Cancel<T>(a: multiset<T>, b: multiset<T>, x: T)
    requires a + multiset{x} == b + multiset{x}
    ensures a == b
  {
    assert (a + multiset{x}) - multiset{x} == a && (b + multiset{x}) - multiset{x} == b;
  }

  /** The keys of a permutation are a permutation of the keys. */
  lemma {:induction false} KeysOfPermutation<T>(xs: seq<T>, ys: seq<T>, key: T -> int)
    requires multiset(xs) == multiset(ys)
    ensures multiset(Keys(xs, key)) == multiset(Keys(ys, key))
    decreases |xs|
  {
    if xs == [] {
      assert |multiset(ys)| == |ys|;
    } else {
      var x := xs[0];
      assert x in multiset(ys);
      var j :| 0 <= j < |ys| && ys[j] == x;
      WithoutMultiset(xs, 0);
      WithoutMultiset(ys, j);
      Cancel(multiset(Without(xs, 0)), multiset(Without(ys, j)), x);
      KeysOfPermutation(Without(xs, 0), Without(ys, j), key);
      WithoutKeys(xs, key, 0);
      WithoutKeys(ys, key, j);
    }
  }
}
