/** The top-N leaderboard: a sorted set of scores and a detail record per contestant, written by flushes, read
    by rank. */
module Leaderboard {
  import opened Sequences
  import opened SortedSets
  import opened Decimal

  /** What a flush writes for one contestant: the score of the sorted set and the detail record. */
  datatype Row<K(==), V> = Row(contestantId: K, score: real, window: V)

  function EntryOf<K(==), V>(r: Row<K, V>): Entry<K> {
    Entry(r.contestantId, r.score)
  }

  /** The sorted set after one ZADD per row. */
  function Merged<K(==), V>(less: (K, K) -> bool, z: seq<Entry<K>>, rows: seq<Row<K, V>>): seq<Entry<K>> {
    if rows == [] then z
    else
      var r := rows[|rows| - 1];
      ZAdd(less, Merged(less, z, rows[..|rows| - 1]), r.contestantId, r.score)
  }

  /** The detail records after one SET per row. */
  function MergedDetails<K(==), V>(details: map<K, Row<K, V>>, rows: seq<Row<K, V>>): map<K, Row<K, V>> {
    if rows == [] then details
    else
      var r := rows[|rows| - 1];
      MergedDetails(details, rows[..|rows| - 1])[r.contestantId := r]
  }

  ghost predicate OneRowEach<K, V>(rows: seq<Row<K, V>>) {
    forall i, j :: 0 <= i < j < |rows| ==> rows[i].contestantId != rows[j].contestantId
  }

  /** Every ranked member has a detail record, its own, with the score it is ranked by. */
  ghost predicate Coherent<K(!new), V>(z: seq<Entry<K>>, details: map<K, Row<K, V>>) {
    forall e :: e in z ==> e.member in details && EntryOf(details[e.member]) == e
  }

  lemma {:induction false} MergedValid<K(!new), V>(less: (K, K) -> bool, z: seq<Entry<K>>, rows: seq<Row<K, V>>)
    requires StrictTotalOrder(less) && ValidSet(less, z)
    ensures ValidSet(less, Merged(less, z, rows))
  {
    if rows != [] {
      var r := rows[|rows| - 1];
      MergedValid(less, z, rows[..|rows| - 1]);
      ZAddCorrect(less, Merged(less, z, rows[..|rows| - 1]), r.contestantId, r.score);
    }
  }

  ghost predicate HasRow<K, V>(rows: seq<Row<K, V>>, id: K) {
    exists i :: 0 <= i < |rows| && rows[i].contestantId == id
  }

  ghost predicate Writes<K, V>(rows: seq<Row<K, V>>, e: Entry<K>) {
    exists i :: 0 <= i < |rows| && EntryOf(rows[i]) == e
  }

  lemma RowsSnoc<K, V>(rows: seq<Row<K, V>>, r: Row<K, V>, e: Entry<K>)
    ensures HasRow(rows + [r], e.member) <==> HasRow(rows, e.member) || r.contestantId == e.member
    ensures Writes(rows + [r], e) <==> Writes(rows, e) || EntryOf(r) == e
  {
    var more := rows + [r];
    assert forall i :: 0 <= i < |rows| ==> more[i] == rows[i];
    assert more[|rows|] == r;
  }

  /** A written row is the detail record of its contestant afterwards. */
  lemma {:induction false} WrittenDetail<K(!new), V>(details: map<K, Row<K, V>>, rows: seq<Row<K, V>>, i: nat)
    requires OneRowEach(rows) && i < |rows|
    ensures var id := rows[i].contestantId;
      id in MergedDetails(details, rows) && MergedDetails(details, rows)[id] == rows[i]
  {
    var t := rows[..|rows| - 1];
    if i < |t| {
      assert t[i] == rows[i];
      WrittenDetail(details, t, i);
    }
  }

  /** Other contestants keep the record they have, or have none. */
  lemma {:induction false} UnwrittenDetail<K(!new), V>(details: map<K, Row<K, V>>, rows: seq<Row<K, V>>, id: K)
    requires forall i :: 0 <= i < |rows| ==> rows[i].contestantId != id
    ensures id in MergedDetails(details, rows) <==> id in details
    ensures id in details ==> MergedDetails(details, rows)[id] == details[id]
  {
    if rows != [] {
      UnwrittenDetail(details, rows[..|rows| - 1], id);
    }
  }

  lemma MergedSnoc<K(!new), V>(less: (K, K) -> bool, z: seq<Entry<K>>, rows: seq<Row<K, V>>, r: Row<K, V>)
    requires StrictTotalOrder(less) && ValidSet(less, z)
    ensures Merged(less, z, rows + [r]) == ZAdd(less, Merged(less, z, rows), r.contestantId, r.score)
    ensures forall e :: e in Merged(less, z, rows + [r]) <==>
              (e in Merged(less, z, rows) && e.member != r.contestantId) || e == EntryOf(r)
  {
    SnocPrefix(rows, r);
    MergedValid(less, z, rows);
    ZAddCorrect(less, Merged(less, z, rows), r.contestantId, r.score);
  }

  lemma LastRowIsNew<K, V>(rows: seq<Row<K, V>>)
    requires OneRowEach(rows) && rows != []
    ensures var t, r := rows[..|rows| - 1], rows[|rows| - 1];
      rows == t + [r] && OneRowEach(t) && !HasRow(t, r.contestantId)
  {
    var t := rows[..|rows| - 1];
    assert forall i :: 0 <= i < |t| ==> t[i] == rows[i];
  }

  lemma WritesHasRow<K, V>(rows: seq<Row<K, V>>, e: Entry<K>)
    requires Writes(rows, e)
    ensures HasRow(rows, e.member)
  {
    var i :| 0 <= i < |rows| && EntryOf(rows[i]) == e;
    assert rows[i].contestantId == e.member;
  }

  /** The old scores overridden by the new ones. */
  lemma {:induction false} MergedMembers<K(!new), V>(less: (K, K) -> bool, z: seq<Entry<K>>, rows: seq<Row<K, V>>,
      e: Entry<K>)
    requires StrictTotalOrder(less) && ValidSet(less, z) && OneRowEach(rows)
    ensures e in Merged(less, z, rows) <==> (e in z && !HasRow(rows, e.member)) || Writes(rows, e)
  {
    if rows != [] {
      var t, r := rows[..|rows| - 1], rows[|rows| - 1];
      LastRowIsNew(rows);
      hide ValidSet, StrictTotalOrder, OneRowEach, Merged, ZAdd, HasRow, Writes;
      MergedMembers(less, z, t, e);
      MergedSnoc(less, z, t, r);
      RowsSnoc(t, r, e);
      if Writes(t, e) {
        WritesHasRow(t, e);
      }
    }
  }

  lemma {:induction false} MergedCoherent<K(!new), V>(less: (K, K) -> bool, z: seq<Entry<K>>,
      details: map<K, Row<K, V>>, rows: seq<Row<K, V>>)
    requires StrictTotalOrder(less) && ValidSet(less, z) && Coherent(z, details)
    ensures Coherent(Merged(less, z, rows), MergedDetails(details, rows))
  {
    if rows != [] {
      var t, r := rows[..|rows| - 1], rows[|rows| - 1];
      MergedCoherent(less, z, details, t);
      MergedSnoc(less, z, t, r);
      assert rows == t + [r];
      hide ValidSet, StrictTotalOrder, Merged, ZAdd, Coherent;
      CoherentAfterRow(Merged(less, z, t), Merged(less, z, rows), MergedDetails(details, t), r);
    }
  }

  lemma CoherentAfterRow<K(!new), V>(z: seq<Entry<K>>, z': seq<Entry<K>>, details: map<K, Row<K, V>>, r: Row<K, V>)
    requires Coherent(z, details)
    requires forall e :: e in z' <==> (e in z && e.member != r.contestantId) || e == EntryOf(r)
    ensures Coherent(z', details[r.contestantId := r])
  {
  }

  /** What a flush of rows leaves of the ranking: the best topN of the merged scores, or all if topN is not positive. */
  ghost predicate FlushedTo<K(!new), V>(less: (K, K) -> bool, z: seq<Entry<K>>, rows: seq<Row<K, V>>, topN: int,
      z': seq<Entry<K>>)
  {
    if rows == [] then z' == z
    else if topN <= 0 then z' == Merged(less, z, rows)
    else IsTop(less, z', Merged(less, z, rows), topN)
  }

  /** e is on the board that rows are written to: its new row has this score, or it has none and keeps its old score. */
  ghost predicate Stands<K(!new), V>(z: seq<Entry<K>>, rows: seq<Row<K, V>>, e: Entry<K>) {
    (e in z && !HasRow(rows, e.member)) || Writes(rows, e)
  }

  /**
   * A flush with one row per contestant: whoever stands on the board afterwards stood there with that score, whoever is
   * dropped scores less than everyone kept, or as much with a member that comes first, and nobody is dropped while
   * there is room.
   */
  lemma FlushKeepsBest<K(!new), V>(less: (K, K) -> bool, z: seq<Entry<K>>, rows: seq<Row<K, V>>, topN: int,
      z': seq<Entry<K>>, e: Entry<K>, f: Entry<K>)
    requires StrictTotalOrder(less) && ValidSet(less, z) && OneRowEach(rows) && rows != []
    requires FlushedTo(less, z, rows, topN, z')
    ensures e in z' ==> Stands(z, rows, e)
    ensures Stands(z, rows, f) && f !in z' ==> 0 < topN == |z'|
    ensures e in z' && Stands(z, rows, f) && f !in z' ==>
              f.score < e.score || (f.score == e.score && less(f.member, e.member))
  {
    MergedMembers(less, z, rows, e);
    MergedMembers(less, z, rows, f);
    hide Merged, HasRow, Writes, ValidSet, StrictTotalOrder, OneRowEach;
  }

  /** The entry i places from the top. */
  function FromTop<K(==)>(z: seq<Entry<K>>, i: nat): Entry<K>
    requires i < |z|
  {
    z[|z| - 1 - i]
  }

  class Board<K(!new,==), V(!new)> {
    const less: (K, K) -> bool
    var zset: seq<Entry<K>>
    var details: map<K, Row<K, V>>

    ghost predicate Valid()
      reads this
    {
      StrictTotalOrder(less) && ValidSet(less, zset) && Coherent(zset, details)
    }

    constructor (less: (K, K) -> bool)
      requires StrictTotalOrder(less)
      ensures Valid() && zset == [] && details == map[] && this.less == less
    {
      this.less := less;
      zset, details := [], map[];
    }

    /** The pipeline of ZADD and SET commands. */
    method Write(rows: seq<Row<K, V>>)
      modifies this
      ensures zset == Merged(less, old(zset), rows) && details == MergedDetails(old(details), rows)
    {
      for i := 0 to |rows|
        invariant zset == Merged(less, old(zset), rows[..i]) && details == MergedDetails(old(details), rows[..i])
      {
        PrefixSnoc(rows, i);
        SnocPrefix(rows[..i], rows[i]);
        zset := ZAdd(less, zset, rows[i].contestantId, rows[i].score);
        details := details[rows[i].contestantId := rows[i]];
      }
      PrefixWhole(rows);
    }

    /** The Redis half of a flush, every command succeeding. */
    method Flush(rows: seq<Row<K, V>>, topN: int)
      requires Valid()
      modifies this
      ensures Valid()
      ensures FlushedTo(less, old(zset), rows, topN, zset)
      ensures forall e, f :: e in zset && f in Merged(less, old(zset), rows) && f !in zset && rows != [] ==>
                f.score < e.score || (f.score == e.score && less(f.member, e.member))
      ensures if rows == [] then zset == old(zset) else topN > 0 ==> |zset| <= topN
      ensures details == MergedDetails(old(details), rows)
    {
      hide ValidSet, StrictTotalOrder, Coherent, Merged, IsTop;
      if |rows| > 0 {
        MergedValid(less, zset, rows);
        MergedCoherent(less, zset, details, rows);
        Write(rows);
        if topN > 0 {
          Trim(topN);
        }
      }
    }

    method Trim(topN: nat)
      requires Valid() && topN > 0
      modifies this`zset
      ensures Valid() && |zset| <= topN && IsTop(less, zset, old(zset), topN)
      ensures forall e, f :: e in zset && f in old(zset) && f !in zset ==>
                f.score < e.score || (f.score == e.score && less(f.member, e.member))
    {
      var card := |zset|;
      if card > topN {
        DropLowestIsTop(less, zset, card - topN);
        zset := DropLowest(zset, card - topN);
      }
    }

    /** MGET: the detail records of members. A member without one is skipped. */
    method ReadDetails(members: seq<K>) returns (rows: seq<Row<K, V>>)
      ensures rows == Fetched(details, members)
    {
      rows := [];
      for i := 0 to |members|
        invariant rows == Fetched(details, members[..i])
      {
        PrefixSnoc(members, i);
        SnocPrefix(members[..i], members[i]);
        if members[i] in details {
          rows := rows + [details[members[i]].(contestantId := members[i])];
        }
      }
      PrefixWhole(members);
    }

    /** GET /leaderboard when no flush runs between its two commands; module LeaderboardReads has the other case. */
    method Read(limit: nat) returns (rows: seq<Row<K, V>>)
      requires Valid()
      ensures |rows| == Min(limit, |zset|)
      ensures forall i :: 0 <= i < |rows| ==>
                EntryOf(rows[i]) == FromTop(zset, i)
                && rows[i].contestantId in details && rows[i] == details[rows[i].contestantId]
      ensures forall i, j :: 0 <= i < j < |rows| ==>
                && rows[i].contestantId != rows[j].contestantId && rows[i].score >= rows[j].score
                && (rows[i].score == rows[j].score ==> less(rows[j].contestantId, rows[i].contestantId))
    {
      var members := TopMembers(zset, limit);
      rows := ReadDetails(members);
      forall i | 0 <= i < |members|
        ensures members[i] in details && EntryOf(details[members[i]]) == FromTop(zset, i)
      {
        assert FromTop(zset, i) in zset;
      }
      AllFetched(details, members);
      forall i, j | 0 <= i < j < |rows|
        ensures rows[i].contestantId != rows[j].contestantId && rows[i].score >= rows[j].score
        ensures rows[i].score == rows[j].score ==> less(rows[j].contestantId, rows[i].contestantId)
      {
        ReadIsDescending(less, zset, rows, i, j);
      }
    }
  }

  /** ZREVRANGE: the members of the highest ranks, best first. */
  function TopMembers<K>(z: seq<Entry<K>>, limit: nat): (members: seq<K>)
    ensures |members| == Min(limit, |z|)
  {
    seq(Min(limit, |z|), i requires 0 <= i < |z| => FromTop(z, i).member)
  }

  function Fetched<K, V>(details: map<K, Row<K, V>>, members: seq<K>): seq<Row<K, V>> {
    if members == [] then []
    else
      var m := members[|members| - 1];
      Fetched(details, members[..|members| - 1])
      + (if m in details then [details[m].(contestantId := m)] else [])
  }

  lemma {:induction false} AllFetched<K, V>(details: map<K, Row<K, V>>, members: seq<K>)
    requires forall i :: 0 <= i < |members| ==> members[i] in details
    ensures |Fetched(details, members)| == |members|
    ensures forall i :: 0 <= i < |members| ==>
              Fetched(details, members)[i] == details[members[i]].(contestantId := members[i])
  {
    if members != [] {
      AllFetched(details, members[..|members| - 1]);
    }
  }

  /** Rows read by rank are of different contestants, the better score first and equal scores by descending member. */
  lemma ReadIsDescending<K(!new), V>(less: (K, K) -> bool, z: seq<Entry<K>>, rows: seq<Row<K, V>>, i: nat, j: nat)
    requires StrictTotalOrder(less) && ValidSet(less, z) && |rows| <= |z| && i < j < |rows|
    requires forall k :: 0 <= k < |rows| ==> EntryOf(rows[k]) == FromTop(z, k)
    ensures rows[i].contestantId != rows[j].contestantId && rows[i].score >= rows[j].score
    ensures rows[i].score == rows[j].score ==> less(rows[j].contestantId, rows[i].contestantId)
  {
    FromTopDescends(less, z, i, j);
    assert EntryOf(rows[i]) == FromTop(z, i) && EntryOf(rows[j]) == FromTop(z, j);
  }

  lemma FromTopDescends<K(!new)>(less: (K, K) -> bool, z: seq<Entry<K>>, i: nat, j: nat)
    requires StrictTotalOrder(less) && ValidSet(less, z) && i < j < |z|
    ensures var a, b := FromTop(z, i), FromTop(z, j);
      && a.member != b.member && a.score >= b.score && (a.score == b.score ==> less(b.member, a.member))
  {
    var a, b := FromTop(z, i), FromTop(z, j);
    RankedByScore(less, z, |z| - 1 - j, |z| - 1 - i);
    RankedAt(less, z, |z| - 1 - j, |z| - 1 - i);
    assert a in z && b in z;
  }

  /** The limit of a request: the number its query gives if that is from 1 to 1000. */
  function RequestedLimit(query: string): (limit: nat)
    ensures 1 <= limit <= 1000 && (limit == 50 || ParseInt64(query) == Int(limit))
  {
    var v := ParseInt64(query);
    if v.Int? && v.value > 0 && v.value <= 1000 then v.value else 50
  }

  /** A limit in range is honoured however it is written, and every other written number is answered with 50. */
  lemma RequestedLimitOfNumeral(x: Numeral)
    requires Proper(x)
    ensures RequestedLimit(Spelled(x)) == if 1 <= Number(x) <= 1000 then Number(x) else 50
  {
    ParseSpelled(x);
  }

  lemma RequestedLimitOfOther(query: string)
    requires forall x :: Proper(x) ==> query != Spelled(x)
    ensures RequestedLimit(query) == 50
  {
    if !ParseInt64(query).BadSyntax? {
      var x := ParsedIsSpelled(query);
    }
  }

  // ---------------------------------------------------------------------------------------------------------------
  // Members are strings, ordered byte by byte
  // ---------------------------------------------------------------------------------------------------------------

  predicate LexLess(a: string, b: string) {
    b != [] && (a == [] || a[0] < b[0] || (a[0] == b[0] && LexLess(a[1..], b[1..])))
  }

  lemma {:induction false} LexIrreflexive(a: string)
    ensures !LexLess(a, a)
  {
    if a != [] {
      LexIrreflexive(a[1..]);
    }
  }

  lemma {:induction false} LexTransitive(a: string, b: string, c: string)
    requires LexLess(a, b) && LexLess(b, c)
    ensures LexLess(a, c)
    decreases |a|
  {
    if a != [] && a[0] == b[0] && b[0] == c[0] {
      LexTransitive(a[1..], b[1..], c[1..]);
    }
  }

  lemma {:induction false} LexTotal(a: string, b: string)
    ensures a == b || LexLess(a, b) || LexLess(b, a)
    decreases |a|
  {
    if a != [] && b != [] && a[0] == b[0] {
      LexTotal(a[1..], b[1..]);
      assert a == [a[0]] + a[1..] && b == [b[0]] + b[1..];
    }
  }

  /** The first difference decides. */
  lemma {:induction false} LexByFirstDifference(p: string, x: char, s: string, y: char, t: string)
    requires x != y
    ensures LexLess(p + [x] + s, p + [y] + t) <==> x < y
  {
    var a, b := p + [x] + s, p + [y] + t;
    if p != [] {
      assert a[1..] == p[1..] + [x] + s && b[1..] == p[1..] + [y] + t;
      LexByFirstDifference(p[1..], x, s, y, t);
    }
  }

  /** A proper prefix comes first. */
  lemma {:induction false} LexPrefix(p: string, s: string)
    requires s != []
    ensures LexLess(p, p + s)
  {
    if p == [] {
      assert p + s == s;
    } else {
      assert (p + s)[1..] == p[1..] + s;
      LexPrefix(p[1..], s);
    }
  }

  lemma LexIsStrictTotalOrder()
    ensures StrictTotalOrder(LexLess)
  {
    forall x: string
      ensures !LexLess(x, x)
    {
      LexIrreflexive(x);
    }
    forall x: string, y: string, z: string | LexLess(x, y) && LexLess(y, z)
      ensures LexLess(x, z)
    {
      LexTransitive(x, y, z);
    }
    forall x: string, y: string
      ensures x == y || LexLess(x, y) || LexLess(y, x)
    {
      LexTotal(x, y);
    }
  }
}
