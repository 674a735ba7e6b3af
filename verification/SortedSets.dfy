/** A sorted set as the leaderboard store keeps it: members with scores, ranked by score and then by member. */
module SortedSets {
  import opened Sequences

  datatype Entry<K(==)> = Entry(member: K, score: real)

  ghost predicate StrictTotalOrder<K(!new)>(less: (K, K) -> bool) {
    && (forall x :: !less(x, x))
    && (forall x, y, z :: less(x, y) && less(y, z) ==> less(x, z))
    && (forall x, y :: x == y || less(x, y) || less(y, x))
  }

  predicate Before<K(==)>(less: (K, K) -> bool, a: Entry<K>, b: Entry<K>) {
    a.score < b.score || (a.score == b.score && less(a.member, b.member))
  }

  ghost predicate AllBefore<K(!new)>(less: (K, K) -> bool, z: seq<Entry<K>>, e: Entry<K>) {
    forall x :: x in z ==> Before(less, x, e)
  }

  /** Lowest rank first. */
  ghost predicate Ranked<K(!new)>(less: (K, K) -> bool, z: seq<Entry<K>>) {
    z == [] || (Ranked(less, z[..|z| - 1]) && AllBefore(less, z[..|z| - 1], z[|z| - 1]))
  }

  ghost predicate OneScoreEach<K(!new)>(z: seq<Entry<K>>) {
    forall a, b :: a in z && b in z && a.member == b.member ==> a == b
  }

  ghost predicate ValidSet<K(!new)>(less: (K, K) -> bool, z: seq<Entry<K>>) {
    Ranked(less, z) && OneScoreEach(z)
  }

  function Remove<K(==)>(z: seq<Entry<K>>, member: K): seq<Entry<K>> {
    if z == [] then []
    else
      var last := z[|z| - 1];
      Remove(z[..|z| - 1], member) + (if last.member == member then [] else [last])
  }

  function Insert<K(==)>(less: (K, K) -> bool, z: seq<Entry<K>>, e: Entry<K>): seq<Entry<K>> {
    if z == [] || Before(less, z[|z| - 1], e) then z + [e]
    else Insert(less, z[..|z| - 1], e) + [z[|z| - 1]]
  }

  /** Sets a member's score, whether it was there or not. */
  function ZAdd<K(==)>(less: (K, K) -> bool, z: seq<Entry<K>>, member: K, score: real): seq<Entry<K>> {
    Insert(less, Remove(z, member), Entry(member, score))
  }

  lemma {:induction false} RemoveMembers<K>(z: seq<Entry<K>>, member: K)
    ensures forall e :: e in Remove(z, member) <==> e in z && e.member != member
  {
    if z != [] {
      var t, last := z[..|z| - 1], z[|z| - 1];
      RemoveMembers(t, member);
      assert z == t + [last];
      assert forall e :: e in z <==> e in t || e == last;
    }
  }

  lemma RankedSnoc<K(!new)>(less: (K, K) -> bool, z: seq<Entry<K>>, e: Entry<K>)
    requires Ranked(less, z) && AllBefore(less, z, e)
    ensures Ranked(less, z + [e])
  {
    SnocPrefix(z, e);
  }

  lemma {:induction false} RemoveRanked<K(!new)>(less: (K, K) -> bool, z: seq<Entry<K>>, member: K)
    requires Ranked(less, z)
    ensures Ranked(less, Remove(z, member))
  {
    if z != [] {
      var t, last := z[..|z| - 1], z[|z| - 1];
      RemoveRanked(less, t, member);
      RemoveMembers(t, member);
      if last.member == member {
        assert Remove(z, member) == Remove(t, member);
      } else {
        RankedSnoc(less, Remove(t, member), last);
      }
    }
  }

  lemma {:induction false} InsertMembers<K>(less: (K, K) -> bool, z: seq<Entry<K>>, e: Entry<K>)
    ensures forall x :: x in Insert(less, z, e) <==> x in z || x == e
  {
    if !(z == [] || Before(less, z[|z| - 1], e)) {
      var t, last := z[..|z| - 1], z[|z| - 1];
      InsertMembers(less, t, e);
      assert z == t + [last];
      assert forall x :: x in z <==> x in t || x == last;
    }
  }

  lemma BeforeTransitive<K(!new)>(less: (K, K) -> bool, a: Entry<K>, b: Entry<K>, c: Entry<K>)
    requires StrictTotalOrder(less) && Before(less, a, b) && Before(less, b, c)
    ensures Before(less, a, c)
  {
  }

  lemma {:induction false} InsertRanked<K(!new)>(less: (K, K) -> bool, z: seq<Entry<K>>, e: Entry<K>)
    requires StrictTotalOrder(less) && Ranked(less, z) && forall x :: x in z ==> x.member != e.member
    ensures Ranked(less, Insert(less, z, e))
  {
    if z == [] {
      RankedSnoc(less, z, e);
    } else {
      var t, last := z[..|z| - 1], z[|z| - 1];
      assert last in z;
      if Before(less, last, e) {
        forall x | x in z
          ensures Before(less, x, e)
        {
          if x != last {
            assert z == t + [last];
            assert x in t;
            BeforeTransitive(less, x, last, e);
          }
        }
        RankedSnoc(less, z, e);
      } else {
        assert forall x :: x in t ==> x in z;
        InsertRanked(less, t, e);
        InsertMembers(less, t, e);
        RankedSnoc(less, Insert(less, t, e), last);
      }
    }
  }

  /** Setting a score replaces the member's old entry, if any, and keeps everything else and the ranking. */
  lemma ZAddCorrect<K(!new)>(less: (K, K) -> bool, z: seq<Entry<K>>, member: K, score: real)
    requires StrictTotalOrder(less) && ValidSet(less, z)
    ensures ValidSet(less, ZAdd(less, z, member, score))
    ensures forall e :: e in ZAdd(less, z, member, score) <==>
              (e in z && e.member != member) || e == Entry(member, score)
  {
    RemoveMembers(z, member);
    RemoveRanked(less, z, member);
    InsertMembers(less, Remove(z, member), Entry(member, score));
    InsertRanked(less, Remove(z, member), Entry(member, score));
  }

  lemma {:induction false} RankedAt<K(!new)>(less: (K, K) -> bool, z: seq<Entry<K>>, i: nat, j: nat)
    requires Ranked(less, z) && i < j < |z|
    ensures Before(less, z[i], z[j])
  {
    var t := z[..|z| - 1];
    if j == |z| - 1 {
      assert z[i] == t[i] && t[i] in t;
    } else {
      assert z[i] == t[i] && z[j] == t[j];
      RankedAt(less, t, i, j);
    }
  }

  /** Ranks are by score; members of equal score by their order. */
  lemma RankedByScore<K(!new)>(less: (K, K) -> bool, z: seq<Entry<K>>, i: nat, j: nat)
    requires Ranked(less, z) && i < j < |z|
    ensures z[i].score <= z[j].score && (z[i].score == z[j].score ==> less(z[i].member, z[j].member))
  {
    RankedAt(less, z, i, j);
  }

  /**
   * kept is the best n of all: as many as fit, and everything left out scores less than each of them, or as much and
   * its member comes first.
   */
  ghost predicate IsTop<K(!new)>(less: (K, K) -> bool, kept: seq<Entry<K>>, all: seq<Entry<K>>, n: nat) {
    && |kept| == Min(n, |all|) && (|all| <= n ==> kept == all)
    && (forall e :: e in kept ==> e in all)
    && (forall e, f :: e in kept && f in all && f !in kept ==>
          f.score < e.score || (f.score == e.score && less(f.member, e.member)))
  }

  /** ZREMRANGEBYRANK 0 k-1: drops the k lowest. */
  function DropLowest<K>(z: seq<Entry<K>>, k: nat): seq<Entry<K>>
    requires k <= |z|
  {
    z[k..]
  }

  lemma {:induction false} RankedSuffix<K(!new)>(less: (K, K) -> bool, z: seq<Entry<K>>, k: nat)
    requires Ranked(less, z) && k <= |z|
    ensures Ranked(less, z[k..])
  {
    if k < |z| {
      var t := z[..|z| - 1];
      RankedSuffix(less, t, k);
      assert z[k..] == t[k..] + [z[|z| - 1]];
      RankedSnoc(less, t[k..], z[|z| - 1]);
    }
  }

  lemma DropLowestIsTop<K(!new)>(less: (K, K) -> bool, z: seq<Entry<K>>, k: nat)
    requires ValidSet(less, z) && k <= |z|
    ensures ValidSet(less, DropLowest(z, k)) && IsTop(less, DropLowest(z, k), z, |z| - k)
  {
    var kept := z[k..];
    RankedSuffix(less, z, k);
    forall e, f | e in kept && f in z && f !in kept
      ensures f.score < e.score || (f.score == e.score && less(f.member, e.member))
    {
      var j :| 0 <= j < |kept| && kept[j] == e;
      var i :| 0 <= i < |z| && z[i] == f;
      assert forall l :: k <= l < |z| ==> z[l] == kept[l - k] && kept[l - k] in kept;
      RankedByScore(less, z, i, k + j);
    }
  }
}
