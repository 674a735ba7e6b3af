/**
 * The leaderboard one store command at a time. A flush is a pipeline, not a transaction, and a read is two commands, so
 * commands of flushes may run between those of a read.
 */
module LeaderboardReads {
  import opened Sequences
  import opened SortedSets
  import opened Leaderboard

  datatype Command<K(==), V> =
    | AddScore(row: Row<K, V>)     // ZADD
    | PutDetail(row: Row<K, V>)    // SET
    | Trim(count: nat)             // ZREMRANGEBYRANK 0 count-1

  datatype Store<K(==), V> = Store(zset: seq<Entry<K>>, details: map<K, Row<K, V>>)

  function Exec<K(==), V>(less: (K, K) -> bool, s: Store<K, V>, c: Command<K, V>): Store<K, V> {
    match c
    case AddScore(r) => s.(zset := ZAdd(less, s.zset, r.contestantId, r.score))
    case PutDetail(r) => s.(details := s.details[r.contestantId := r])
    case Trim(n) => s.(zset := DropLowest(s.zset, Min(n, |s.zset|)))
  }

  function ExecAll<K(==), V>(less: (K, K) -> bool, s: Store<K, V>, cs: seq<Command<K, V>>): Store<K, V> {
    if cs == [] then s else Exec(less, ExecAll(less, s, cs[..|cs| - 1]), cs[|cs| - 1])
  }

  /** What one ingester sends: a row's detail record right after its score, whatever is trimmed between rows. */
  ghost predicate Paired<K(!new), V(!new)>(cs: seq<Command<K, V>>) {
    && (forall i :: 0 <= i < |cs| - 1 && cs[i].AddScore? ==> cs[i + 1] == PutDetail(cs[i].row))
    && (forall i :: 0 <= i < |cs| && cs[i].PutDetail? ==> i > 0 && cs[i - 1] == AddScore(cs[i].row))
  }

  /** The commands have stopped between the score and the detail record of a row. */
  predicate HalfWritten<K, V>(cs: seq<Command<K, V>>) {
    cs != [] && cs[|cs| - 1].AddScore?
  }

  /** Every ranked member has its detail record with its score, except the one whose row is half written. */
  ghost predicate NearlyCoherent<K(!new), V(!new)>(s: Store<K, V>, cs: seq<Command<K, V>>) {
    && (forall e :: e in s.zset ==>
          || (e.member in s.details && EntryOf(s.details[e.member]) == e)
          || (HalfWritten(cs) && e == EntryOf(cs[|cs| - 1].row)))
    && (HalfWritten(cs) ==> EntryOf(cs[|cs| - 1].row) in s.zset)
  }

  lemma PairedPrefix<K(!new), V(!new)>(cs: seq<Command<K, V>>, k: nat)
    requires Paired(cs) && k <= |cs|
    ensures Paired(cs[..k])
  {
  }

  lemma ScoreAdded<K(!new), V(!new)>(less: (K, K) -> bool, s: Store<K, V>, cs: seq<Command<K, V>>, r: Row<K, V>)
    requires StrictTotalOrder(less) && ValidSet(less, s.zset) && NearlyCoherent(s, cs) && !HalfWritten(cs)
    ensures var s' := Exec(less, s, AddScore(r));
      ValidSet(less, s'.zset) && NearlyCoherent(s', cs + [AddScore(r)])
  {
    hide NearlyCoherent, ValidSet, ZAdd, StrictTotalOrder;
    ZAddCorrect(less, s.zset, r.contestantId, r.score);
    NearlyWithScore(s, Exec(less, s, AddScore(r)), cs, r);
  }

  lemma NearlyWithScore<K(!new), V(!new)>(s: Store<K, V>, s': Store<K, V>, cs: seq<Command<K, V>>, r: Row<K, V>)
    requires NearlyCoherent(s, cs) && !HalfWritten(cs) && s'.details == s.details
    requires forall e :: e in s'.zset <==> (e in s.zset && e.member != r.contestantId) || e == EntryOf(r)
    ensures NearlyCoherent(s', cs + [AddScore(r)])
  {
    assert (cs + [AddScore(r)])[|cs|] == AddScore(r);
  }

  lemma DetailPut<K(!new), V(!new)>(less: (K, K) -> bool, s: Store<K, V>, cs: seq<Command<K, V>>, r: Row<K, V>)
    requires ValidSet(less, s.zset) && NearlyCoherent(s, cs) && HalfWritten(cs) && cs[|cs| - 1] == AddScore(r)
    ensures var s' := Exec(less, s, PutDetail(r));
      ValidSet(less, s'.zset) && NearlyCoherent(s', cs + [PutDetail(r)])
  {
    assert (cs + [PutDetail(r)])[|cs|] == PutDetail(r);
    assert forall e :: e in s.zset && e.member == r.contestantId ==> e == EntryOf(r);
    hide ValidSet;
  }

  lemma Trimmed<K(!new), V(!new)>(less: (K, K) -> bool, s: Store<K, V>, cs: seq<Command<K, V>>, n: nat)
    requires ValidSet(less, s.zset) && NearlyCoherent(s, cs) && !HalfWritten(cs)
    ensures var s' := Exec(less, s, Trim(n));
      ValidSet(less, s'.zset) && NearlyCoherent(s', cs + [Trim(n)])
  {
    assert (cs + [Trim(n)])[|cs|] == Trim(n);
    DropLowestIsTop(less, s.zset, Min(n, |s.zset|));
    hide ValidSet, DropLowest;
  }

  /** At every point of the ingester's command stream the set is ranked and all but a half-written row agree. */
  lemma {:induction false} AlwaysNearlyCoherent<K(!new), V(!new)>(less: (K, K) -> bool, s: Store<K, V>,
      cs: seq<Command<K, V>>)
    requires StrictTotalOrder(less) && ValidSet(less, s.zset) && Coherent(s.zset, s.details) && Paired(cs)
    ensures ValidSet(less, ExecAll(less, s, cs).zset) && NearlyCoherent(ExecAll(less, s, cs), cs)
  {
    if cs != [] {
      var t, c := cs[..|cs| - 1], cs[|cs| - 1];
      PairedPrefix(cs, |cs| - 1);
      AlwaysNearlyCoherent(less, s, t);
      assert cs == t + [c] && (t != [] ==> t[|t| - 1] == cs[|cs| - 2]);
      hide NearlyCoherent, ValidSet, StrictTotalOrder, Exec;
      match c {
        case AddScore(r) => ScoreAdded(less, ExecAll(less, s, t), t, r);
        case PutDetail(r) => DetailPut(less, ExecAll(less, s, t), t, r);
        case Trim(n) => Trimmed(less, ExecAll(less, s, t), t, n);
      }
    }
  }

  ghost predicate PutsDetail<K, V>(cs: seq<Command<K, V>>, row: Row<K, V>) {
    exists k :: 0 <= k < |cs| && cs[k] == PutDetail(row)
  }

  lemma {:induction false} ExecConcat<K, V>(less: (K, K) -> bool, s: Store<K, V>, a: seq<Command<K, V>>,
      b: seq<Command<K, V>>)
    ensures ExecAll(less, s, a + b) == ExecAll(less, ExecAll(less, s, a), b)
  {
    if b == [] {
      assert a + b == a;
    } else {
      var t, c := b[..|b| - 1], b[|b| - 1];
      assert a + b == (a + t) + [c];
      SnocPrefix(a + t, c);
      ExecConcat(less, s, a, t);
    }
  }

  /** Detail records are never removed, and only replaced by one that was put. */
  lemma {:induction false} DetailsStay<K(!new), V(!new)>(less: (K, K) -> bool, s: Store<K, V>,
      cs: seq<Command<K, V>>, m: K)
    ensures var s' := ExecAll(less, s, cs);
      && (m in s.details ==> m in s'.details)
      && (m in s'.details ==> (m in s.details && s'.details[m] == s.details[m]) || PutsDetail(cs, s'.details[m]))
    ensures forall k :: 0 <= k < |cs| && cs[k].PutDetail? ==>
              cs[k].row.contestantId in ExecAll(less, s, cs).details
  {
    if cs != [] {
      var t, c := cs[..|cs| - 1], cs[|cs| - 1];
      DetailsStay(less, s, t, m);
      forall k | 0 <= k < |cs| && cs[k].PutDetail?
        ensures cs[k].row.contestantId in ExecAll(less, s, cs).details
      {
        if k < |t| {
          assert t[k] == cs[k];
        }
      }
      var s' := ExecAll(less, s, cs);
      if m in s'.details {
        if c.PutDetail? && c.row.contestantId == m {
          assert cs[|cs| - 1] == PutDetail(s'.details[m]);
        } else if PutsDetail(t, s'.details[m]) {
          var k :| 0 <= k < |t| && t[k] == PutDetail(s'.details[m]);
          assert cs[k] == t[k];
        }
      }
    }
  }

  /** What a read gives for one ranked entry after more commands: its own record or a newer one of the same member. */
  lemma EntryAcrossFlushes<K(!new), V(!new)>(less: (K, K) -> bool, s: Store<K, V>, before: seq<Command<K, V>>,
      between: seq<Command<K, V>>, e: Entry<K>)
    requires StrictTotalOrder(less) && ValidSet(less, s.zset) && Coherent(s.zset, s.details)
    requires Paired(before + between) && e in ExecAll(less, s, before).zset
    requires HalfWritten(before) ==> between != []
    ensures var details := ExecAll(less, s, before + between).details;
      && e.member in details
      && (EntryOf(details[e.member]) == e || PutsDetail(between, details[e.member]))
  {
    var s1 := ExecAll(less, s, before);
    PairedPrefix(before + between, |before|);
    assert (before + between)[..|before|] == before;
    AlwaysNearlyCoherent(less, s, before);
    ExecConcat(less, s, before, between);
    DetailsStay(less, s1, between, e.member);
    if HalfWritten(before) && e == EntryOf(before[|before| - 1].row) {
      var r := before[|before| - 1].row;
      assert (before + between)[|before| - 1] == AddScore(r) && (before + between)[|before|] == between[0];
      assert between[0] == PutDetail(r);
      if !PutsDetail(between, ExecAll(less, s1, between).details[e.member]) {
        NotOverwritten(less, s1, between, r);
      }
    }
  }

  /** The record of a row whose SET is among the commands comes from one of them. */
  lemma {:induction false} NotOverwritten<K(!new), V(!new)>(less: (K, K) -> bool, s: Store<K, V>,
      cs: seq<Command<K, V>>, r: Row<K, V>)
    requires PutsDetail(cs, r)
    ensures r.contestantId in ExecAll(less, s, cs).details
    ensures PutsDetail(cs, ExecAll(less, s, cs).details[r.contestantId])
  {
    var t, c := cs[..|cs| - 1], cs[|cs| - 1];
    if c.PutDetail? && c.row.contestantId == r.contestantId {
      assert cs[|cs| - 1] == PutDetail(c.row);
    } else {
      var k :| 0 <= k < |cs| && cs[k] == PutDetail(r);
      assert t[k] == PutDetail(r);
      NotOverwritten(less, s, t, r);
      var r' := ExecAll(less, s, t).details[r.contestantId];
      var j :| 0 <= j < |t| && t[j] == PutDetail(r');
      assert cs[j] == PutDetail(r');
    }
  }

  /**
   * A read whose commands are separated by any commands of flushes: it returns one row for each of the best members of
   * the moment it ranked them, in that order, with the record ranked then or a newer one of the same contestant.
   * Nothing is skipped, unless both its commands fall between the score and the record of one row; ReadWithinRow has
   * that case.
   */
  lemma ReadAcrossFlushes<K(!new), V(!new)>(less: (K, K) -> bool, s: Store<K, V>, before: seq<Command<K, V>>,
      between: seq<Command<K, V>>, limit: nat)
    requires StrictTotalOrder(less) && ValidSet(less, s.zset) && Coherent(s.zset, s.details)
    requires Paired(before + between)
    requires HalfWritten(before) ==> between != []
    ensures var z, details := ExecAll(less, s, before).zset, ExecAll(less, s, before + between).details;
      var rows := Fetched(details, TopMembers(z, limit));
      && |rows| == Min(limit, |z|)
      && (forall i, j :: 0 <= i < j < |rows| ==> FromTop(z, i).score >= FromTop(z, j).score)
      && forall i :: 0 <= i < |rows| ==>
           && rows[i].contestantId == FromTop(z, i).member && rows[i].contestantId in details
           && (EntryOf(rows[i]) == FromTop(z, i) || PutsDetail(between, details[rows[i].contestantId]))
  {
    var z, details := ExecAll(less, s, before).zset, ExecAll(less, s, before + between).details;
    var members := TopMembers(z, limit);
    PairedPrefix(before + between, |before|);
    assert (before + between)[..|before|] == before;
    AlwaysNearlyCoherent(less, s, before);
    forall i, j | 0 <= i < j < |z|
      ensures FromTop(z, i).score >= FromTop(z, j).score
    {
      FromTopDescends(less, z, i, j);
    }
    forall i | 0 <= i < |members|
      ensures members[i] == FromTop(z, i).member && members[i] in details
      ensures EntryOf(details[members[i]]) == FromTop(z, i) || PutsDetail(between, details[members[i]])
    {
      EntryAcrossFlushes(less, s, before, between, FromTop(z, i));
    }
    AllFetched(details, members);
  }

  lemma TopMembersDistinct<K(!new)>(less: (K, K) -> bool, z: seq<Entry<K>>, limit: nat)
    requires StrictTotalOrder(less) && ValidSet(less, z)
    ensures NoDuplicates(TopMembers(z, limit))
  {
    var members := TopMembers(z, limit);
    forall i, j | 0 <= i < j < |members|
      ensures members[i] != members[j]
    {
      RankedAt(less, z, |z| - 1 - j, |z| - 1 - i);
      assert FromTop(z, i) in z && FromTop(z, j) in z;
    }
  }

  lemma {:induction false} FetchedButOne<K, V>(details: map<K, Row<K, V>>, members: seq<K>, x: K)
    requires NoDuplicates(members) && forall i :: 0 <= i < |members| && members[i] !in details ==> members[i] == x
    ensures |Fetched(details, members)|
         == if x in members && x !in details then |members| - 1 else |members|
  {
    if members != [] {
      var t, last := members[..|members| - 1], members[|members| - 1];
      assert members == t + [last] && forall i :: 0 <= i < |t| ==> t[i] == members[i] != last;
      FetchedButOne(details, t, x);
    }
  }

  /**
   * In the excepted case the read is short by exactly one row, and only if the half-written row is the first of its
   * contestant and ranks within the limit.
   */
  lemma ReadWithinRow<K(!new), V(!new)>(less: (K, K) -> bool, s: Store<K, V>, before: seq<Command<K, V>>, limit: nat)
    requires StrictTotalOrder(less) && ValidSet(less, s.zset) && Coherent(s.zset, s.details)
    requires Paired(before) && HalfWritten(before)
    ensures var s', member := ExecAll(less, s, before), before[|before| - 1].row.contestantId;
      var members := TopMembers(s'.zset, limit);
      |Fetched(s'.details, members)|
        == Min(limit, |s'.zset|) - if member in members && member !in s'.details then 1 else 0
  {
    var s', member := ExecAll(less, s, before), before[|before| - 1].row.contestantId;
    var members := TopMembers(s'.zset, limit);
    AlwaysNearlyCoherent(less, s, before);
    TopMembersDistinct(less, s'.zset, limit);
    forall i | 0 <= i < |members| && members[i] !in s'.details
      ensures members[i] == member
    {
      assert FromTop(s'.zset, i) in s'.zset;
    }
    FetchedButOne(s'.details, members, member);
  }

  // ---------------------------------------------------------------------------------------------------------------
  // The commands of a flush
  // ---------------------------------------------------------------------------------------------------------------

  function RowCommands<K(==), V>(rows: seq<Row<K, V>>): seq<Command<K, V>> {
    if rows == [] then []
    else
      var r := rows[|rows| - 1];
      RowCommands(rows[..|rows| - 1]) + [AddScore(r), PutDetail(r)]
  }

  /** The pipeline of a flush is such a stream, and what it does is what Board.Write does at once. */
  lemma {:induction false} PipelineIsWrite<K(!new), V(!new)>(less: (K, K) -> bool, s: Store<K, V>,
      rows: seq<Row<K, V>>)
    ensures Paired(RowCommands(rows)) && !HalfWritten(RowCommands(rows))
    ensures ExecAll(less, s, RowCommands(rows))
         == Store(Merged(less, s.zset, rows), MergedDetails(s.details, rows))
  {
    if rows != [] {
      var t, r := rows[..|rows| - 1], rows[|rows| - 1];
      PipelineIsWrite(less, s, t);
      ExecConcat(less, s, RowCommands(t), [AddScore(r), PutDetail(r)]);
      ExecTwo(less, ExecAll(less, s, RowCommands(t)), AddScore(r), PutDetail(r));
    }
  }

  /** A trim if more than topN members are ranked. */
  function TrimCommands<K(==), V>(card: nat, topN: int): seq<Command<K, V>> {
    if 0 < topN < card then [Trim(card - topN)] else []
  }

  /** All commands of a flush. */
  function FlushCommands<K(==), V>(less: (K, K) -> bool, z: seq<Entry<K>>, rows: seq<Row<K, V>>, topN: int)
      : seq<Command<K, V>>
  {
    if rows == [] then [] else RowCommands(rows) + TrimCommands(|Merged(less, z, rows)|, topN)
  }

  /** The commands of a flush, one at a time, leave the board as Board.Flush does at once. */
  lemma CommandsAreFlush<K(!new), V(!new)>(less: (K, K) -> bool, s: Store<K, V>, rows: seq<Row<K, V>>, topN: int)
    requires StrictTotalOrder(less) && ValidSet(less, s.zset)
    ensures var s' := ExecAll(less, s, FlushCommands(less, s.zset, rows, topN));
      FlushedTo(less, s.zset, rows, topN, s'.zset) && s'.details == MergedDetails(s.details, rows)
  {
    if rows != [] {
      var z := Merged(less, s.zset, rows);
      var tail := TrimCommands<K, V>(|z|, topN);
      AfterRows(less, s, rows, tail);
      MergedValid(less, s.zset, rows);
      hide ExecAll, Merged, MergedDetails, RowCommands, ValidSet, StrictTotalOrder, IsTop;
      AfterTrim(less, Store(z, MergedDetails(s.details, rows)), topN);
    }
  }

  lemma AfterRows<K(!new), V(!new)>(less: (K, K) -> bool, s: Store<K, V>, rows: seq<Row<K, V>>,
      tail: seq<Command<K, V>>)
    ensures ExecAll(less, s, RowCommands(rows) + tail)
         == ExecAll(less, Store(Merged(less, s.zset, rows), MergedDetails(s.details, rows)), tail)
  {
    hide ExecAll, Merged, MergedDetails, RowCommands;
    PipelineIsWrite(less, s, rows);
    ExecConcat(less, s, RowCommands(rows), tail);
  }

  lemma AfterTrim<K(!new), V(!new)>(less: (K, K) -> bool, s: Store<K, V>, topN: int)
    requires ValidSet(less, s.zset)
    ensures var s' := ExecAll(less, s, TrimCommands(|s.zset|, topN));
      (if topN <= 0 then s'.zset == s.zset else IsTop(less, s'.zset, s.zset, topN)) && s'.details == s.details
  {
    if 0 < topN < |s.zset| {
      TrimIsTop(less, s, topN);
    } else if topN > 0 {
      WholeIsTop(less, s.zset, topN);
    }
  }

  lemma WholeIsTop<K(!new)>(less: (K, K) -> bool, z: seq<Entry<K>>, topN: int)
    requires topN >= |z|
    ensures IsTop(less, z, z, topN)
  {
  }

  lemma TrimIsTop<K(!new), V(!new)>(less: (K, K) -> bool, s: Store<K, V>, topN: int)
    requires ValidSet(less, s.zset) && 0 < topN < |s.zset|
    ensures var s' := ExecAll(less, s, [Trim(|s.zset| - topN)]);
      IsTop(less, s'.zset, s.zset, topN) && s'.details == s.details
  {
    ExecOne(less, s, Trim(|s.zset| - topN));
    DropLowestIsTop(less, s.zset, |s.zset| - topN);
    hide IsTop, ValidSet, DropLowest;
  }

  lemma ExecOne<K, V>(less: (K, K) -> bool, s: Store<K, V>, c: Command<K, V>)
    ensures ExecAll(less, s, [c]) == Exec(less, s, c)
  {
    assert [c][..0] == [];
  }

  lemma ExecTwo<K, V>(less: (K, K) -> bool, s: Store<K, V>, c: Command<K, V>, d: Command<K, V>)
    ensures ExecAll(less, s, [c, d]) == Exec(less, Exec(less, s, c), d)
  {
    assert [c, d][..1] == [c] && [c][..0] == [];
    assert ExecAll(less, s, [c]) == Exec(less, s, c);
  }
}
