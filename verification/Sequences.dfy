/** Facts about finite sequences, counting and permutations that several components share. */
module Sequences {

  /** Number of elements of s that satisfy p. */
  function Count<T>(p: T -> bool, s: seq<T>): (n: nat)
    ensures n <= |s|
  {
    if s == [] then 0 else Count(p, s[..|s| - 1]) + (if p(s[|s| - 1]) then 1 else 0)
  }

  /** Concatenation of f over the elements of s. */
  function FlatMap<T, U>(f: T -> seq<U>, s: seq<T>): (r: seq<U>) {
    if s == [] then [] else FlatMap(f, s[..|s| - 1]) + f(s[|s| - 1])
  }

  ghost predicate NoDuplicates<T>(s: seq<T>) {
    forall i, j :: 0 <= i < j < |s| ==> s[i] != s[j]
  }

  ghost predicate Permutation<T>(a: seq<T>, b: seq<T>) {
    multiset(a) == multiset(b)
  }

  function Min(a: nat, b: nat): (m: nat)
    ensures m <= a && m <= b && (m == a || m == b)
  {
    if a < b then a else b
  }

  lemma InsertSize<K, V>(m: map<K, V>, k: K, v: V)
    requires k !in m
    ensures |m[k := v]| == |m| + 1
  {
    assert m[k := v].Keys == m.Keys + {k};
    assert |m[k := v]| == |m[k := v].Keys| == |m.Keys| + 1;
  }

  lemma PrefixSnoc<T>(s: seq<T>, i: nat)
    requires i < |s|
    ensures s[..i + 1] == s[..i] + [s[i]]
  {
  }

  lemma SnocPrefix<T>(s: seq<T>, x: T)
    ensures (s + [x])[..|s|] == s
  {
  }

  lemma PrefixWhole<T>(s: seq<T>)
    ensures s[..|s|] == s
  {
  }

  /** s without the element at position i. */
  function Without<T>(s: seq<T>, i: nat): (r: seq<T>)
    requires i < |s|
    ensures |r| == |s| - 1
  {
    s[..i] + s[i + 1..]
  }

  lemma WithoutMultiset<T>(s: seq<T>, i: nat)
    requires i < |s|
    ensures multiset(s) == multiset(Without(s, i)) + multiset{s[i]}
  {
    assert s == s[..i] + [s[i]] + s[i + 1..];
  }

  /** A permutation of a non-empty sequence holds its last element; without it both are still permutations. */
  lemma TakeOut<T>(a: seq<T>, b: seq<T>) returns (i: nat)
    requires a != [] && Permutation(a, b)
    ensures i < |b| && b[i] == a[|a| - 1] && Permutation(a[..|a| - 1], Without(b, i))
  {
    var x := a[|a| - 1];
    assert a == a[..|a| - 1] + [x];
    assert x in multiset(a);
    assert x in b;
    i :| 0 <= i < |b| && b[i] == x;
    WithoutMultiset(b, i);
    assert multiset(a) == multiset(a[..|a| - 1]) + multiset{x};
    assert multiset(a[..|a| - 1]) == multiset(a) - multiset{x};
  }

  lemma {:induction false} CountConcat<T>(p: T -> bool, a: seq<T>, b: seq<T>)
    ensures Count(p, a + b) == Count(p, a) + Count(p, b)
  {
    if b == [] {
      assert a + b == a;
    } else {
      assert (a + b)[..|a + b| - 1] == a + b[..|b| - 1];
      CountConcat(p, a, b[..|b| - 1]);
    }
  }

  lemma CountOne<T>(p: T -> bool, x: T)
    ensures Count(p, [x]) == if p(x) then 1 else 0
  {
    assert [x][..0] == [];
  }

  lemma CountUpdate<T>(p: T -> bool, s: seq<T>, i: nat, x: T)
    requires i < |s|
    ensures Count(p, s[i := x]) + (if p(s[i]) then 1 else 0) == Count(p, s) + (if p(x) then 1 else 0)
  {
    assert s == s[..i] + ([s[i]] + s[i + 1..]);
    assert s[i := x] == s[..i] + ([x] + s[i + 1..]);
    CountConcat(p, s[..i], [s[i]] + s[i + 1..]);
    CountConcat(p, s[..i], [x] + s[i + 1..]);
    CountConcat(p, [s[i]], s[i + 1..]);
    CountConcat(p, [x], s[i + 1..]);
    CountOne(p, s[i]);
    CountOne(p, x);
  }

  lemma {:induction false} CountPermutation<T>(p: T -> bool, a: seq<T>, b: seq<T>)
    requires Permutation(a, b)
    ensures Count(p, a) == Count(p, b)
    decreases |a|
  {
    if a == [] {
      assert |multiset(b)| == 0;
    } else {
      var i := TakeOut(a, b);
      CountPermutation(p, a[..|a| - 1], Without(b, i));
      assert b == b[..i] + ([b[i]] + b[i + 1..]);
      CountConcat(p, b[..i], [b[i]] + b[i + 1..]);
      CountConcat(p, [b[i]], b[i + 1..]);
      CountConcat(p, b[..i], b[i + 1..]);
      CountOne(p, b[i]);
    }
  }

  lemma {:induction false} CountNone<T>(p: T -> bool, s: seq<T>)
    requires forall x :: x in s ==> !p(x)
    ensures Count(p, s) == 0
  {
    if s != [] {
      CountNone(p, s[..|s| - 1]);
    }
  }

  lemma {:induction false} CountAll<T>(p: T -> bool, s: seq<T>)
    requires forall x :: x in s ==> p(x)
    ensures Count(p, s) == |s|
  {
    if s != [] {
      CountAll(p, s[..|s| - 1]);
    }
  }

  lemma {:induction false} FlatMapConcat<T, U>(f: T -> seq<U>, a: seq<T>, b: seq<T>)
    ensures FlatMap(f, a + b) == FlatMap(f, a) + FlatMap(f, b)
  {
    if b == [] {
      assert a + b == a;
    } else {
      assert (a + b)[..|a + b| - 1] == a + b[..|b| - 1];
      FlatMapConcat(f, a, b[..|b| - 1]);
      assert FlatMap(f, a) + (FlatMap(f, b[..|b| - 1]) + f(b[|b| - 1]))
        == (FlatMap(f, a) + FlatMap(f, b[..|b| - 1])) + f(b[|b| - 1]);
    }
  }

  lemma FlatMapOne<T, U>(f: T -> seq<U>, x: T)
    ensures FlatMap(f, [x]) == f(x)
  {
    assert [x][..0] == [];
    assert FlatMap(f, [x]) == [] + f(x);
  }

  lemma FlatMapSplit<T, U>(f: T -> seq<U>, s: seq<T>, i: nat)
    requires i < |s|
    ensures FlatMap(f, s) == FlatMap(f, s[..i]) + f(s[i]) + FlatMap(f, s[i + 1..])
  {
    var before, rest := s[..i], s[i + 1..];
    assert s == before + ([s[i]] + rest);
    FlatMapConcat(f, before, [s[i]] + rest);
    FlatMapConcat(f, [s[i]], rest);
    FlatMapOne(f, s[i]);
    assert FlatMap(f, before) + (f(s[i]) + FlatMap(f, rest)) == FlatMap(f, before) + f(s[i]) + FlatMap(f, rest);
  }

  /** Replacing one element exchanges its contribution and nothing else. */
  lemma FlatMapUpdate<T, U>(f: T -> seq<U>, s: seq<T>, i: nat, x: T)
    requires i < |s|
    ensures multiset(FlatMap(f, s[i := x])) + multiset(f(s[i])) == multiset(FlatMap(f, s)) + multiset(f(x))
  {
    FlatMapSplit(f, s, i);
    FlatMapSplit(f, s[i := x], i);
    assert s[i := x][..i] == s[..i] && s[i := x][i + 1..] == s[i + 1..];
  }

  lemma {:induction false} FlatMapEmpty<T, U>(f: T -> seq<U>, s: seq<T>)
    requires forall i :: 0 <= i < |s| ==> f(s[i]) == []
    ensures FlatMap(f, s) == []
  {
    if s != [] {
      FlatMapEmpty(f, s[..|s| - 1]);
    }
  }

  lemma {:induction false} FlatMapPermutation<T, U>(f: T -> seq<U>, a: seq<T>, b: seq<T>)
    requires Permutation(a, b)
    ensures Permutation(FlatMap(f, a), FlatMap(f, b))
    decreases |a|
  {
    if a == [] {
      assert |multiset(b)| == 0;
    } else {
      var i := TakeOut(a, b);
      FlatMapPermutation(f, a[..|a| - 1], Without(b, i));
      FlatMapSplit(f, b, i);
      FlatMapConcat(f, b[..i], b[i + 1..]);
    }
  }

  /** Exchanging x for y in a sum, beside a third part. */
  lemma ExchangeBeside<T>(a: multiset<T>, x: multiset<T>, b: multiset<T>, y: multiset<T>, c: multiset<T>)
    requires a + x == b + y
    ensures (a + c) + x == (b + c) + y
  {
    forall e
      ensures ((a + c) + x)[e] == ((b + c) + y)[e]
    {
      assert (a + x)[e] == (b + y)[e];
    }
  }

  /** A three-part balance after something enters the third part or leaves it for the first or the second. */
  lemma BalanceAfter<T>(total: multiset<T>, a: multiset<T>, b: multiset<T>, c: multiset<T>, c': multiset<T>,
      entering: multiset<T>, toA: multiset<T>, toB: multiset<T>)
    requires total == a + b + c && c' + (toA + toB) == c + entering
    ensures total + entering == (a + toA) + (b + toB) + c'
  {
    forall e
      ensures (total + entering)[e] == ((a + toA) + (b + toB) + c')[e]
    {
      assert (c' + (toA + toB))[e] == (c + entering)[e];
    }
  }

  lemma SumCancels<T>(a: multiset<T>, b: multiset<T>, c: multiset<T>)
    requires a + c == b + c
    ensures a == b
  {
    forall x
      ensures a[x] == b[x]
    {
      assert (a + c)[x] == (b + c)[x];
    }
  }

  /** An element of a flat map comes from one of the sources. */
  lemma {:induction false} FlatMapMember<T, U>(f: T -> seq<U>, s: seq<T>, u: U) returns (i: nat)
    requires u in FlatMap(f, s)
    ensures i < |s| && u in f(s[i])
  {
    if u in f(s[|s| - 1]) {
      i := |s| - 1;
    } else {
      i := FlatMapMember(f, s[..|s| - 1], u);
    }
  }

  lemma {:induction false} FlatMapHas<T, U>(f: T -> seq<U>, s: seq<T>, i: nat, u: U)
    requires i < |s| && u in f(s[i])
    ensures u in FlatMap(f, s)
  {
    if i < |s| - 1 {
      FlatMapHas(f, s[..|s| - 1], i, u);
    }
  }

  /** A sequence drawn from a duplicate-free one, as multisets, is duplicate-free. */
  lemma NoDuplicatesSub<T>(a: seq<T>, b: seq<T>)
    requires NoDuplicates(b) && multiset(a) <= multiset(b)
    ensures NoDuplicates(a)
  {
    forall i, j | 0 <= i < j < |a|
      ensures a[i] != a[j]
    {
      if a[i] == a[j] {
        WithoutMultiset(a, j);
        assert Without(a, j)[i] == a[i];
        assert multiset(a)[a[i]] >= 2;
        NoDuplicatesOnce(b, a[i]);
      }
    }
  }

  lemma {:induction false} NoDuplicatesOnce<T>(s: seq<T>, x: T)
    requires NoDuplicates(s)
    ensures multiset(s)[x] <= 1
  {
    if s != [] {
      var t, last := s[..|s| - 1], s[|s| - 1];
      NoDuplicatesOnce(t, x);
      assert s == t + [last];
      assert forall i :: 0 <= i < |t| ==> t[i] == s[i] != last;
      assert last !in multiset(t);
    }
  }

  lemma TimesAtLeast(n: int, d: int)
    requires n > 0 && d >= 1
    ensures n * d >= n
  {
  }

  lemma TimesDifference(n: int, q: int, q': int)
    requires n > 0
    ensures n * q' - n * q == n * (q' - q)
    ensures q' > q ==> n * (q' - q) >= n
    ensures q' < q ==> n * (q' - q) <= -n
  {
    if q' > q {
      TimesAtLeast(n, q' - q);
    } else if q' < q {
      TimesAtLeast(n, q - q');
      assert n * (q' - q) == -(n * (q - q'));
    }
  }

  /** Two positions less than n apart fall in the same slot only if they are equal. */
  lemma SlotsDistinct(n: nat, a: nat, b: nat)
    requires n > 0 && a < b < a + n
    ensures a % n != b % n
  {
    var q, q' := a / n, b / n;
    assert a == n * q + a % n && b == n * q' + b % n;
    TimesDifference(n, q, q');
  }

  lemma LapEarlierSameSlot(n: nat, t: nat)
    requires n > 0
    ensures (t - n) % n == t % n
  {
    var q := t / n;
    assert t - n == n * (q - 1) + t % n;
    var q' := (t - n) / n;
    assert t - n == n * q' + (t - n) % n;
    TimesDifference(n, q - 1, q');
  }

  lemma FirstLap(n: nat, k: nat)
    requires k < n
    ensures k % n == k && (k - n) % n == k
  {
    LapEarlierSameSlot(n, k);
  }

  /** Positions of one slot are whole laps apart. */
  lemma SameSlotApart(n: nat, a: int, b: int) returns (laps: nat)
    requires n > 0 && a % n == b % n && b < a + n
    ensures a - b == n * laps
  {
    var q, q' := a / n, b / n;
    assert a == n * q + a % n && b == n * q' + b % n;
    TimesDifference(n, q, q');
    TimesDifference(n, q', q);
    laps := q - q';
  }

  lemma RemovedInTwo<T>(all: set<T>, rest: set<T>, last: set<T>, a: set<T>, b: set<T>)
    requires rest == all - a * all && last == rest - b * rest
    ensures last == all - (a + b) * all
    ensures (a + b) * all == a * all + b * rest && |(a + b) * all| == |a * all| + |b * rest|
  {
    assert (a + b) * all == a * all + b * rest;
  }

  lemma AddedInTwo<T>(all: set<T>, a: set<T>, b: set<T>)
    ensures (all + a) + b == all + (a + b)
  {
  }
}
