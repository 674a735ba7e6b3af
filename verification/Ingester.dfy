/** The collector loop of the telemetry ingester: aggregate, batch, flush, and the leaderboard it maintains. */
module Ingester {
  import opened Sequences
  import opened Telemetry
  import opened Scoring
  import opened Aggregation
  import opened SortedSets
  import opened Leaderboard

  const PENDING_CAP := 200000

  function LatencyUs(rec: Metric): nat {
    if rec.recvTimeNs >= rec.sentTimeNs then
      var us := (rec.recvTimeNs - rec.sentTimeNs) / 1000;
      if us == 0 then 1 else us
    else 1
  }

  /** What one record contributes to its contestant. */
  function SampleOf(rec: Metric): Sample<string> {
    Normalize(rec.contestantId, LatencyUs(rec), rec.isCorrect)
  }

  function Samples(recs: seq<Metric>): (samples: seq<Sample<string>>)
    ensures |samples| == |recs|
  {
    if recs == [] then [] else Samples(recs[..|recs| - 1]) + [SampleOf(recs[|recs| - 1])]
  }

  function RowOf(w: ContestantWindow): Row<string, ContestantWindow> {
    Row(w.contestantId, w.score, w)
  }

  /** One flush: the raw batch handed to the database and the windows handed to the leaderboard beside it. */
  datatype Flushed = Flushed(batch: seq<Metric>, windows: seq<ContestantWindow>, startNs: int, endNs: int)

  function Batches(flushes: seq<Flushed>): seq<Metric> {
    if flushes == [] then [] else Batches(flushes[..|flushes| - 1]) + flushes[|flushes| - 1].batch
  }

  /** The windows of every flush are the group-by of its own batch. */
  ghost predicate FlushesAgree(flushes: seq<Flushed>, lib: Library, params: ScoringParams)
  {
    flushes == [] ||
    (var f := flushes[|flushes| - 1];
     FlushesAgree(flushes[..|flushes| - 1], lib, params)
     && IsGroupBy(f.windows, Samples(f.batch), f.startNs, f.endNs, lib, params))
  }

  lemma {:induction false} FlushAgrees(flushes: seq<Flushed>, lib: Library, params: ScoringParams, i: nat)
    requires FlushesAgree(flushes, lib, params) && i < |flushes|
    ensures IsGroupBy(flushes[i].windows, Samples(flushes[i].batch), flushes[i].startNs, flushes[i].endNs, lib, params)
  {
    if i < |flushes| - 1 {
      FlushAgrees(flushes[..|flushes| - 1], lib, params, i);
    }
  }

  lemma BatchesSnoc(flushes: seq<Flushed>, f: Flushed)
    ensures Batches(flushes + [f]) == Batches(flushes) + f.batch
  {
    SnocPrefix(flushes, f);
  }

  lemma FlushesAgreeMore(flushes: seq<Flushed>, f: Flushed, more: seq<Flushed>, lib: Library, params: ScoringParams)
    requires FlushesAgree(flushes, lib, params) && more == flushes + [f]
    requires IsGroupBy(f.windows, Samples(f.batch), f.startNs, f.endNs, lib, params)
    ensures FlushesAgree(more, lib, params)
  {
    SnocPrefix(flushes, f);
  }

  lemma SamplesSnoc(recs: seq<Metric>, rec: Metric)
    ensures Samples(recs + [rec]) == Samples(recs) + [SampleOf(rec)]
  {
    SnocPrefix(recs, rec);
  }

  function Rows(windows: seq<ContestantWindow>): (rows: seq<Row<string, ContestantWindow>>)
    ensures |rows| == |windows|
  {
    if windows == [] then [] else Rows(windows[..|windows| - 1]) + [RowOf(windows[|windows| - 1])]
  }

  lemma {:induction false} RowAt(windows: seq<ContestantWindow>, i: nat)
    requires i < |windows|
    ensures Rows(windows)[i] == RowOf(windows[i])
  {
    if i < |windows| - 1 {
      RowAt(windows[..|windows| - 1], i);
    }
  }

  lemma ContestantsAre(recs: seq<Metric>, id: string)
    ensures id in Contestants(Samples(recs)) <==> exists k :: 0 <= k < |recs| && BelongsTo(id)(recs[k])
  {
    forall k | 0 <= k < |recs|
      ensures Samples(recs)[k].contestantId == id <==> BelongsTo(id)(recs[k])
    {
      SampleAt(recs, k);
      SampleOfRecord(recs[k]);
    }
    hide Samples, BelongsTo;
    if id in Contestants(Samples(recs)) {
      var s :| s in Samples(recs) && s.contestantId == id;
      var k :| 0 <= k < |recs| && Samples(recs)[k] == s;
      assert BelongsTo(id)(recs[k]);
    }
    if k :| 0 <= k < |recs| && BelongsTo(id)(recs[k]) {
      assert Samples(recs)[k] in Samples(recs);
    }
  }

  /** A flush overrides exactly the scores of the contestants that have records in its batch. */
  lemma FlushOverrides(z: seq<Entry<string>>, f: Flushed, lib: Library, params: ScoringParams, e: Entry<string>)
    requires ValidSet(LexLess, z)
    requires IsGroupBy(f.windows, Samples(f.batch), f.startNs, f.endNs, lib, params)
    ensures e in Merged(LexLess, z, Rows(f.windows)) <==>
            if exists k :: 0 <= k < |f.batch| && BelongsTo(e.member)(f.batch[k])
            then exists i ::
                   0 <= i < |f.windows| && f.windows[i].contestantId == e.member && f.windows[i].score == e.score
            else e in z
  {
    var rows := Rows(f.windows);
    forall i | 0 <= i < |rows|
      ensures rows[i] == RowOf(f.windows[i])
    {
      RowAt(f.windows, i);
    }
    LexIsStrictTotalOrder();
    RowsOfGroups(f, lib, params, e);
    MergedMembers(LexLess, z, rows, e);
    hide IsGroupBy, Merged, Rows, Writes, HasRow, BelongsTo, Samples;
    ContestantsAre(f.batch, e.member);
  }

  lemma RowsOfGroups(f: Flushed, lib: Library, params: ScoringParams, e: Entry<string>)
    requires IsGroupBy(f.windows, Samples(f.batch), f.startNs, f.endNs, lib, params)
    requires forall i :: 0 <= i < |f.windows| ==> Rows(f.windows)[i] == RowOf(f.windows[i])
    ensures OneRowEach(Rows(f.windows))
    ensures HasRow(Rows(f.windows), e.member) <==> e.member in Contestants(Samples(f.batch))
    ensures Writes(Rows(f.windows), e) <==>
            exists i :: 0 <= i < |f.windows| && f.windows[i].contestantId == e.member && f.windows[i].score == e.score
    ensures Writes(Rows(f.windows), e) ==> HasRow(Rows(f.windows), e.member)
  {
    hide IsWindowOf, Of, Samples, Rows;
    var rows := Rows(f.windows);
    if e.member in Contestants(Samples(f.batch)) {
      var i :| 0 <= i < |f.windows| && f.windows[i].contestantId == e.member;
      assert rows[i].contestantId == e.member;
    }
    if i :| 0 <= i < |f.windows| && f.windows[i].contestantId == e.member && f.windows[i].score == e.score {
      assert EntryOf(rows[i]) == e;
    }
    if Writes(rows, e) {
      var i :| 0 <= i < |rows| && EntryOf(rows[i]) == e;
      assert f.windows[i].contestantId == e.member && f.windows[i].score == e.score;
      assert rows[i].contestantId == e.member;
    }
  }

  datatype Event =
    | Arrive(rec: Metric, offset: nat, nowNs: int)    // a decoded message from the workers
    | Tick(nowNs: int)
    | Shutdown(nowNs: int)

  function RecordIn(event: Event): seq<Metric> {
    if event.Arrive? then [event.rec] else []
  }

  /** The records a run collects: those that arrive before it shuts down. */
  function Collected(events: seq<Event>): seq<Metric> {
    if events == [] then []
    else RecordIn(events[0]) + if events[0].Shutdown? then [] else Collected(events[1..])
  }

  /** after is before with one more flush, of this batch. */
  ghost predicate OneMoreFlush(before: seq<Flushed>, after: seq<Flushed>, batch: seq<Metric>) {
    && |after| == |before| + 1 && after[..|before|] == before && after[|before|].batch == batch
  }

  /** Flushes that an event makes with so many records pending, and the records pending after it. */
  function FlushesAt(pending: nat, event: Event): nat {
    if event.Arrive? && pending + 1 < PENDING_CAP then 0 else 1
  }

  function PendingAfter(pending: nat, event: Event): nat {
    if event.Arrive? && pending + 1 < PENDING_CAP then pending + 1 else 0
  }

  /** Flushes of a run: one for each tick, one for the shutdown, and one whenever the batch fills up. */
  function FlushCount(pending: nat, events: seq<Event>): nat
    decreases |events|
  {
    if events == [] then 0
    else
      var now, after := FlushesAt(pending, events[0]), PendingAfter(pending, events[0]);
      now + (if events[0].Shutdown? then 0 else FlushCount(after, events[1..]))
  }

  lemma FlushCountFrom(pending: nat, events: seq<Event>, i: nat)
    requires i < |events|
    ensures FlushCount(pending, events[i..]) == FlushesAt(pending, events[i])
      + if events[i].Shutdown? then 0 else FlushCount(PendingAfter(pending, events[i]), events[i + 1..])
  {
    assert events[i..][1..] == events[i + 1..];
  }

  class Collector {
    const agg: Aggregator
    const board: Board<string, ContestantWindow>
    const windowNs: int
    const topN: int
    var pending: seq<Metric>
    var toCommit: seq<nat>
    ghost var collected: seq<Metric>    // every record taken off the channel
    ghost var offsets: seq<nat>         // the offsets of their messages
    ghost var committed: seq<nat>       // the offsets committed so far
    ghost var flushes: seq<Flushed>

    /** Whatever step the loop is at: the windowed totals are those of the batch, and no record is in two places. */
    ghost predicate Balanced()
      reads this, agg, board
    {
      && agg.Valid() && board.Valid()
      && agg.log == Samples(pending)
      && Batches(flushes) + pending == collected
      && FlushesAgree(flushes, agg.lib, agg.params)
      && (topN > 0 ==> |board.zset| <= topN)
    }

    /** What holds at the head of the loop. */
    ghost predicate Valid()
      reads this, agg, board
    {
      Balanced() && |toCommit| == |pending| < PENDING_CAP && committed + toCommit == offsets
    }

    constructor (lib: Library, params: ScoringParams, nowNs: int, windowNs: int, topN: int)
      ensures Valid() && fresh(agg) && fresh(board) && collected == [] && flushes == [] && board.zset == []
      ensures agg.lib == lib && agg.params == params && agg.startNs == nowNs && agg.endNs == nowNs + windowNs
      ensures this.windowNs == windowNs && this.topN == topN && board.less == LexLess
    {
      LexIsStrictTotalOrder();
      agg := new Aggregator(lib, params, nowNs, windowNs);
      board := new Board<string, ContestantWindow>(LexLess);
      this.windowNs, this.topN := windowNs, topN;
      pending, toCommit, collected, flushes, offsets, committed := [], [], [], [], [], [];
    }

    /**
     * flush: the windows go to the leaderboard, the raw batch to the database. Before it the offsets are committed and,
     * except at shutdown, forgotten.
     */
    method CommitAndFlush(nowNs: int, last: bool)
      requires Balanced()
      modifies this, agg, board
      ensures Balanced() && pending == [] && toCommit == (if last then old(toCommit) else [])
      ensures collected == old(collected) && agg.startNs == nowNs && agg.endNs == nowNs + windowNs
      ensures offsets == old(offsets) && committed == old(committed) + old(toCommit)
      ensures |flushes| == |old(flushes)| + 1 && flushes[..|old(flushes)|] == old(flushes)
      ensures var f := flushes[|old(flushes)|];
        && f.batch == old(pending) && f.startNs == old(agg.startNs) && f.endNs == old(agg.endNs)
        && FlushedTo(board.less, old(board.zset), Rows(f.windows), topN, board.zset)
        && board.details == MergedDetails(old(board.details), Rows(f.windows))
    {
      hide IsGroupBy, Consistent, ValidSet, StrictTotalOrder, Coherent, FlushesAgree, Batches, Samples, FlushedTo,
        MergedDetails, Merged;
      if |toCommit| > 0 {
        committed := committed + toCommit;
        if !last {
          toCommit := [];
        }
      }
      ghost var startNs, endNs := agg.startNs, agg.endNs;
      var windows := agg.FlushAndReset(nowNs, windowNs);
      board.Flush(Rows(windows), topN);
      ghost var f := Flushed(pending, windows, startNs, endNs);
      BatchesSnoc(flushes, f);
      ghost var before := flushes;
      flushes := flushes + [f];
      pending := [];
      FlushesAgreeMore(before, f, flushes, agg.lib, agg.params);
    }

    /** The message branch up to the cap test. */
    method Collect(rec: Metric, offset: nat)
      requires Valid()
      modifies this, agg
      ensures Balanced() && |toCommit| == |pending| <= PENDING_CAP
      ensures pending == old(pending) + [rec] && collected == old(collected) + [rec] && flushes == old(flushes)
      ensures toCommit == old(toCommit) + [offset] && offsets == old(offsets) + [offset] && committed == old(committed)
    {
      hide IsGroupBy, Consistent, ValidSet, StrictTotalOrder, Coherent, FlushesAgree, Batches, Samples, FlushedTo;
      toCommit := toCommit + [offset];
      offsets := offsets + [offset];
      var latUs := 1;
      if rec.recvTimeNs >= rec.sentTimeNs {
        latUs := (rec.recvTimeNs - rec.sentTimeNs) / 1000;
        if latUs == 0 {
          latUs := 1;
        }
      }
      SamplesSnoc(pending, rec);
      pending := pending + [rec];
      collected := collected + [rec];
      agg.Add(rec.contestantId, latUs, rec.isCorrect);
    }

    /** A message fills the batch further, or flushes it with this record as its 200000th. */
    method OnMessage(rec: Metric, offset: nat, nowNs: int)
      requires Valid()
      modifies this, agg, board
      ensures Valid() && |pending| < 200000
      ensures collected == old(collected) + [rec] && offsets == old(offsets) + [offset]
      ensures if |old(pending)| + 1 < 200000 then pending == old(pending) + [rec] && flushes == old(flushes)
              else pending == [] && OneMoreFlush(old(flushes), flushes, old(pending) + [rec])
    {
      hide Balanced;
      Collect(rec, offset);
      if |pending| >= PENDING_CAP {
        CommitAndFlush(nowNs, false);
      }
    }

    /** One turn of the collector loop: a tick and a shutdown flush whatever there is. */
    method Handle(event: Event)
      requires Valid()
      modifies this, agg, board
      ensures Balanced() && collected == old(collected) + RecordIn(event)
      ensures event.Arrive? ==>
                if |old(pending)| + 1 < 200000 then pending == old(pending) + [event.rec] && flushes == old(flushes)
                else pending == [] && OneMoreFlush(old(flushes), flushes, old(pending) + [event.rec])
      ensures !event.Arrive? ==> pending == [] && OneMoreFlush(old(flushes), flushes, old(pending))
      ensures if event.Shutdown? then committed == offsets == old(offsets) else Valid()
    {
      hide Balanced;
      match event {
        case Arrive(rec, offset, nowNs) => OnMessage(rec, offset, nowNs);
        case Tick(nowNs) => CommitAndFlush(nowNs, false);
        case Shutdown(nowNs) => CommitAndFlush(nowNs, true);
      }
    }

    /** The collector loop over the events of a run, up to and including a shutdown if there is one. */
    method Run(events: seq<Event>) returns (stopped: bool)
      requires Valid()
      modifies this, agg, board
      ensures Balanced() && collected == old(collected) + Collected(events)
      ensures stopped <==> exists i :: 0 <= i < |events| && events[i].Shutdown?
      ensures if stopped then pending == [] && Batches(flushes) == collected && committed == offsets else Valid()
      ensures |flushes| == |old(flushes)| + FlushCount(|old(pending)|, events)
    {
      hide Balanced, Batches, RecordIn, OneMoreFlush, Collected;
      var i := 0;
      assert events[0..] == events;
      while i < |events|
        invariant i <= |events| && Valid()
        invariant collected + Collected(events[i..]) == old(collected) + Collected(events)
        invariant |flushes| + FlushCount(|pending|, events[i..]) == |old(flushes)| + FlushCount(|old(pending)|, events)
        invariant forall j :: 0 <= j < i ==> !events[j].Shutdown?
      {
        CollectedFrom(events, i);
        FlushCountFrom(|pending|, events, i);
        Turn(events[i]);
        if events[i].Shutdown? {
          AllFlushed();
          return true;
        }
        i := i + 1;
      }
      CollectedAll(events);
      stopped := false;
    }

    /** A turn, as far as the loop counts. */
    method Turn(event: Event)
      requires Valid()
      modifies this, agg, board
      ensures Balanced() && collected == old(collected) + RecordIn(event)
      ensures |flushes| == |old(flushes)| + FlushesAt(|old(pending)|, event)
      ensures |pending| == PendingAfter(|old(pending)|, event)
      ensures if event.Shutdown? then committed == offsets else Valid()
    {
      hide Balanced;
      Handle(event);
    }

    /** Per contestant, what the flushes counted and what is counted now add up to its records, and the correct ones. */
    lemma EveryRecordCounted(id: string)
      requires Balanced()
      ensures Flushes(CountIn, flushes, id) + Get(agg.cnt, id) == Count(BelongsTo(id), collected)
      ensures Flushes(CorrectIn, flushes, id) + Get(agg.ok, id) == Count(CorrectFor(id), collected)
    {
      hide IsGroupBy, ValidSet, StrictTotalOrder, Coherent;
      assert Tracks(TotalsIn(agg.State(), id), Of(agg.log, id));
      OfRecords(pending, id);
      hide Samples, Of, Count;
      FlushesCount(flushes, agg.lib, agg.params, id);
      CountConcat(BelongsTo(id), Batches(flushes), pending);
      CountConcat(CorrectFor(id), Batches(flushes), pending);
    }

    lemma AllFlushed()
      requires Balanced() && pending == []
      ensures Batches(flushes) == collected
    {
    }
  }

  lemma CollectedAll(events: seq<Event>)
    ensures Collected(events[|events|..]) == [] && FlushCount(0, events[|events|..]) == 0
  {
  }

  lemma CollectedFrom(events: seq<Event>, i: nat)
    requires i < |events|
    ensures Collected(events[i..]) ==
      RecordIn(events[i]) + if events[i].Shutdown? then [] else Collected(events[i + 1..])
  {
    assert events[i..][1..] == events[i + 1..];
  }

  // ---------------------------------------------------------------------------------------------------------------
  // What windows and counts say of the records themselves
  // ---------------------------------------------------------------------------------------------------------------

  /** The records that count for contestant id: its own, and for "unknown" also those that name nobody. */
  function BelongsTo(id: string): Metric -> bool {
    (rec: Metric) => if rec.contestantId == "" then id == "unknown" else rec.contestantId == id
  }

  function CorrectFor(id: string): Metric -> bool {
    (rec: Metric) => BelongsTo(id)(rec) && rec.isCorrect
  }

  /** A record counts the microseconds its time stamps give, or one if it was received before it was sent. */
  predicate IngestedUs(rec: Metric, us: nat) {
    if Timed(rec) then TakesUs(rec, us) else us == 1
  }

  ghost predicate HasLatency(recs: seq<Metric>, id: string, us: nat) {
    exists i :: 0 <= i < |recs| && BelongsTo(id)(recs[i]) && IngestedUs(recs[i], us)
  }

  lemma SampleOfRecord(rec: Metric)
    ensures var s := SampleOf(rec);
      && BelongsTo(s.contestantId)(rec) && s.contestantId != "" && s.correct == rec.isCorrect
      && forall us :: IngestedUs(rec, us) <==> us == s.latencyUs
    ensures forall id :: BelongsTo(id)(rec) ==> id == SampleOf(rec).contestantId
  {
  }

  lemma {:induction false} OfRecords(recs: seq<Metric>, id: string)
    ensures |Of(Samples(recs), id)| == Count(BelongsTo(id), recs)
    ensures Count(WasCorrect, Of(Samples(recs), id)) == Count(CorrectFor(id), recs)
  {
    if recs != [] {
      var t, rec := recs[..|recs| - 1], recs[|recs| - 1];
      OfRecords(t, id);
      OfSnoc(Samples(t), SampleOf(rec), id);
      SampleOfRecord(rec);
      assert BelongsTo(id)(rec) <==> id == SampleOf(rec).contestantId;
      assert CorrectFor(id)(rec) <==> BelongsTo(id)(rec) && rec.isCorrect;
      CountConcat(WasCorrect, Of(Samples(t), id), [SampleOf(rec)]);
      CountOne(WasCorrect, SampleOf(rec));
      hide SampleOf, Of, BelongsTo, CorrectFor, IngestedUs, WasCorrect;
    }
  }

  lemma HasLatencySnoc(recs: seq<Metric>, rec: Metric, id: string, us: nat)
    ensures HasLatency(recs + [rec], id, us) <==>
            HasLatency(recs, id, us) || (BelongsTo(id)(rec) && IngestedUs(rec, us))
  {
    hide IngestedUs;
    var more := recs + [rec];
    assert forall i :: 0 <= i < |recs| ==> more[i] == recs[i];
    assert more[|recs|] == rec;
  }

  lemma {:induction false} LatenciesOfRecords(recs: seq<Metric>, id: string, us: nat)
    ensures us in Latencies(Of(Samples(recs), id)) <==> HasLatency(recs, id, us)
  {
    if recs != [] {
      var t, rec := recs[..|recs| - 1], recs[|recs| - 1];
      LatenciesOfRecords(t, id, us);
      assert recs == t + [rec];
      HasLatencySnoc(t, rec, id, us);
      OfSnoc(Samples(t), SampleOf(rec), id);
      SampleOfRecord(rec);
      hide SampleOf, Of, HasLatency, IngestedUs;
      LatenciesSnoc(Of(Samples(t), id), SampleOf(rec));
    }
  }

  /** w counts exactly its contestant's records of the batch, and its extremes are those of their latencies. */
  ghost predicate Describes(w: ContestantWindow, batch: seq<Metric>) {
    var id := w.contestantId;
    && w.count == Count(BelongsTo(id), batch) > 0
    && w.correctCount == Count(CorrectFor(id), batch)
    && HasLatency(batch, id, w.minUs) && HasLatency(batch, id, w.maxUs)
    && forall us: nat :: HasLatency(batch, id, us) ==> w.minUs <= us <= w.maxUs
  }

  /** Every window of a flush describes its batch. */
  lemma WindowsDescribeBatch(f: Flushed, lib: Library, params: ScoringParams, i: nat)
    requires IsGroupBy(f.windows, Samples(f.batch), f.startNs, f.endNs, lib, params) && i < |f.windows|
    ensures Describes(f.windows[i], f.batch)
  {
    var w := f.windows[i];
    var group := Of(Samples(f.batch), w.contestantId);
    OfRecords(f.batch, w.contestantId);
    WindowExtremes(w, group, f.startNs, f.endNs, lib, params);
    forall us
      ensures us in Latencies(group) <==> HasLatency(f.batch, w.contestantId, us)
    {
      LatenciesOfRecords(f.batch, w.contestantId, us);
    }
    hide HasLatency, Of, Samples, IsGroupBy, IsWindowOf;
  }

  lemma WindowExtremes(w: ContestantWindow, group: seq<Sample<string>>, startNs: int, endNs: int,
      lib: Library, params: ScoringParams)
    requires group != [] && IsWindowOf(w, group, startNs, endNs, lib, params)
    ensures w.count == |group| > 0 && w.correctCount == Count(WasCorrect, group)
    ensures w.minUs in Latencies(group) && w.maxUs in Latencies(group)
    ensures forall us :: us in Latencies(group) ==> w.minUs <= us <= w.maxUs
  {
  }

  /** And every record of the batch is in the window of its contestant. */
  lemma RecordHasWindow(f: Flushed, lib: Library, params: ScoringParams, rec: Metric) returns (i: nat)
    requires IsGroupBy(f.windows, Samples(f.batch), f.startNs, f.endNs, lib, params) && rec in f.batch
    ensures i < |f.windows| && BelongsTo(f.windows[i].contestantId)(rec)
  {
    var k :| 0 <= k < |f.batch| && f.batch[k] == rec;
    SampleAt(f.batch, k);
    SampleOfRecord(rec);
    assert SampleOf(rec).contestantId in Contestants(Samples(f.batch));
    i :| 0 <= i < |f.windows| && f.windows[i].contestantId == SampleOf(rec).contestantId;
  }

  lemma {:induction false} SampleAt(recs: seq<Metric>, k: nat)
    requires k < |recs|
    ensures Samples(recs)[k] == SampleOf(recs[k])
  {
    if k < |recs| - 1 {
      SampleAt(recs[..|recs| - 1], k);
    }
  }

  // ---------------------------------------------------------------------------------------------------------------
  // Counting over the history
  // ---------------------------------------------------------------------------------------------------------------

  function CountIn(w: ContestantWindow): nat {
    w.count
  }

  function CorrectIn(w: ContestantWindow): nat {
    w.correctCount
  }

  /** A figure of a contestant's window; 0 if it has no window. */
  function FigureFor(figure: ContestantWindow -> nat, windows: seq<ContestantWindow>, id: string): nat {
    if windows == [] then 0
    else
      var w := windows[|windows| - 1];
      FigureFor(figure, windows[..|windows| - 1], id) + (if w.contestantId == id then figure(w) else 0)
  }

  /** The sum of a figure over all flushes. */
  function Flushes(figure: ContestantWindow -> nat, flushes: seq<Flushed>, id: string): nat {
    if flushes == [] then 0
    else
      Flushes(figure, flushes[..|flushes| - 1], id) + FigureFor(figure, flushes[|flushes| - 1].windows, id)
  }

  lemma {:induction false} FigureForAbsent(figure: ContestantWindow -> nat, windows: seq<ContestantWindow>, id: string)
    requires forall i :: 0 <= i < |windows| ==> windows[i].contestantId != id
    ensures FigureFor(figure, windows, id) == 0
  {
    if windows != [] {
      FigureForAbsent(figure, windows[..|windows| - 1], id);
    }
  }

  lemma {:induction false} FigureForAt(figure: ContestantWindow -> nat, windows: seq<ContestantWindow>, i: nat)
    requires i < |windows|
    requires forall j, k :: 0 <= j < k < |windows| ==> windows[j].contestantId != windows[k].contestantId
    ensures FigureFor(figure, windows, windows[i].contestantId) == figure(windows[i])
  {
    var t := windows[..|windows| - 1];
    if i == |windows| - 1 {
      FigureForAbsent(figure, t, windows[i].contestantId);
    } else {
      FigureForAt(figure, t, i);
    }
  }

  /** One flush counts, for a contestant, its records of the batch. */
  lemma FlushCounts(f: Flushed, lib: Library, params: ScoringParams, id: string)
    requires IsGroupBy(f.windows, Samples(f.batch), f.startNs, f.endNs, lib, params)
    ensures FigureFor(CountIn, f.windows, id) == Count(BelongsTo(id), f.batch)
    ensures FigureFor(CorrectIn, f.windows, id) == Count(CorrectFor(id), f.batch)
  {
    if i :| 0 <= i < |f.windows| && f.windows[i].contestantId == id {
      WindowsDescribeBatch(f, lib, params, i);
      FigureForAt(CountIn, f.windows, i);
      FigureForAt(CorrectIn, f.windows, i);
    } else {
      FigureForAbsent(CountIn, f.windows, id);
      FigureForAbsent(CorrectIn, f.windows, id);
      NoRecords(f, lib, params, id);
    }
  }

  lemma NoRecords(f: Flushed, lib: Library, params: ScoringParams, id: string)
    requires IsGroupBy(f.windows, Samples(f.batch), f.startNs, f.endNs, lib, params)
    requires forall i :: 0 <= i < |f.windows| ==> f.windows[i].contestantId != id
    ensures Count(BelongsTo(id), f.batch) == 0 && Count(CorrectFor(id), f.batch) == 0
  {
    hide IsGroupBy;
    forall rec | rec in f.batch
      ensures !BelongsTo(id)(rec)
    {
      var i := RecordHasWindow(f, lib, params, rec);
      SampleOfRecord(rec);
    }
    CountNone(BelongsTo(id), f.batch);
    CountNone(CorrectFor(id), f.batch);
  }

  lemma {:induction false} FlushesCount(flushes: seq<Flushed>, lib: Library, params: ScoringParams, id: string)
    requires FlushesAgree(flushes, lib, params)
    ensures Flushes(CountIn, flushes, id) == Count(BelongsTo(id), Batches(flushes))
    ensures Flushes(CorrectIn, flushes, id) == Count(CorrectFor(id), Batches(flushes))
  {
    if flushes != [] {
      var t, f := flushes[..|flushes| - 1], flushes[|flushes| - 1];
      FlushesCount(t, lib, params, id);
      hide IsGroupBy;
      FlushCounts(f, lib, params, id);
      CountConcat(BelongsTo(id), Batches(t), f.batch);
      CountConcat(CorrectFor(id), Batches(t), f.batch);
    }
  }
}
