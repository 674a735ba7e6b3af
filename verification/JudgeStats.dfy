/** Draining the ring buffer into the score of a run: counts, nearest-rank percentiles and the judge's formula. */
module JudgeStats {
  import opened Sequences
  import opened Telemetry

  // ---------------------------------------------------------------------------------------------------------------
  // Sorting, as sort.Slice with < on uint64 leaves a slice
  // ---------------------------------------------------------------------------------------------------------------

  ghost predicate Ascending(s: seq<nat>) {
    forall i, j :: 0 <= i <= j < |s| ==> s[i] <= s[j]
  }

  function Insert(s: seq<nat>, x: nat): (r: seq<nat>) {
    if s == [] || s[|s| - 1] <= x then s + [x] else Insert(s[..|s| - 1], x) + [s[|s| - 1]]
  }

  lemma AscendingSnoc(s: seq<nat>, x: nat)
    requires Ascending(s) && forall y :: y in s ==> y <= x
    ensures Ascending(s + [x])
  {
    assert forall i :: 0 <= i < |s| ==> s[i] in s;
  }

  lemma {:induction false} InsertKeeps(s: seq<nat>, x: nat)
    requires Ascending(s)
    ensures multiset(Insert(s, x)) == multiset(s) + multiset{x}
    ensures Ascending(Insert(s, x))
  {
    if s == [] || s[|s| - 1] <= x {
      AscendingSnoc(s, x);
    } else {
      var t, last := s[..|s| - 1], s[|s| - 1];
      assert s == t + [last];
      InsertKeeps(t, x);
      forall y | y in Insert(t, x)
        ensures y <= last
      {
        assert y in multiset(Insert(t, x));
      }
      AscendingSnoc(Insert(t, x), last);
    }
  }

  function Sorted(s: seq<nat>): (r: seq<nat>)
    ensures Permutation(s, r) && |r| == |s| && Ascending(r)
  {
    if s == [] then []
    else
      assert s == s[..|s| - 1] + [s[|s| - 1]];
      InsertKeeps(Sorted(s[..|s| - 1]), s[|s| - 1]);
      var r := Insert(Sorted(s[..|s| - 1]), s[|s| - 1]);
      assert |multiset(r)| == |multiset(s)|;
      r
  }

  // ---------------------------------------------------------------------------------------------------------------
  // Percentiles are order statistics
  // ---------------------------------------------------------------------------------------------------------------

  /** int(float64(n-1) * pct / 100.0) */
  function Rank(n: nat, pct: nat): (k: nat)
    requires n > 0 && pct < 100
    ensures k < n
  {
    RankInRange(n - 1, pct);
    (n - 1) * pct / 100
  }

  lemma RankInRange(m: nat, pct: nat)
    requires pct < 100
    ensures 0 <= m * pct / 100 <= m
  {
    assert m * pct <= m * 100;
  }

  function Percentile(data: seq<nat>, pct: nat): nat
    requires pct < 100
  {
    if data == [] then 0 else Sorted(data)[Rank(|data|, pct)]
  }

  function Below(v: nat): nat -> bool {
    x => x < v
  }

  function AtMost(v: nat): nat -> bool {
    x => x <= v
  }

  /** v is the element of rank k: in the data, at most k elements strictly below it, at least k + 1 not above it. */
  ghost predicate IsOrderStatistic(data: seq<nat>, k: nat, v: nat) {
    v in data && Count(Below(v), data) <= k && Count(AtMost(v), data) >= k + 1
  }

  lemma AscendingRank(s: seq<nat>, k: nat)
    requires Ascending(s) && k < |s|
    ensures IsOrderStatistic(s, k, s[k])
  {
    var v := s[k];
    assert s == s[..k] + s[k..] && s == s[..k + 1] + s[k + 1..];
    CountConcat(Below(v), s[..k], s[k..]);
    CountNone(Below(v), s[k..]);
    CountConcat(AtMost(v), s[..k + 1], s[k + 1..]);
    CountAll(AtMost(v), s[..k + 1]);
  }

  lemma PercentileIsOrderStatistic(data: seq<nat>, pct: nat)
    requires data != [] && pct < 100
    ensures IsOrderStatistic(data, Rank(|data|, pct), Percentile(data, pct))
  {
    var s, k := Sorted(data), Rank(|data|, pct);
    AscendingRank(s, k);
    CountPermutation(Below(s[k]), data, s);
    CountPermutation(AtMost(s[k]), data, s);
    assert s[k] in multiset(s);
  }

  /** v is in the data, and the position pct percent of the way from the first to the last is one of v's. */
  ghost predicate IsNearestRank(data: seq<nat>, pct: nat, v: nat) {
    && v in data
    && 100 * Count(Below(v), data) <= (|data| - 1) * pct < 100 * Count(AtMost(v), data)
  }

  lemma PercentileIsNearestRank(data: seq<nat>, pct: nat)
    requires data != [] && pct < 100
    ensures IsNearestRank(data, pct, Percentile(data, pct))
  {
    PercentileIsOrderStatistic(data, pct);
  }

  /** Only one value can be the element of rank k. */
  lemma OrderStatisticUnique(data: seq<nat>, k: nat, v: nat, w: nat)
    requires IsOrderStatistic(data, k, v) && IsOrderStatistic(data, k, w)
    ensures v == w
  {
    if v < w {
      CountAtMostBelow(data, v, w);
    } else if w < v {
      CountAtMostBelow(data, w, v);
    }
  }

  lemma {:induction false} CountAtMostBelow(s: seq<nat>, v: nat, w: nat)
    requires v < w
    ensures Count(AtMost(v), s) <= Count(Below(w), s)
  {
    if s != [] {
      CountAtMostBelow(s[..|s| - 1], v, w);
    }
  }

  /** An ascending sequence is determined by its multiset. */
  lemma AscendingUnique(a: seq<nat>, b: seq<nat>)
    requires Ascending(a) && Ascending(b) && Permutation(a, b)
    ensures a == b
  {
    assert |multiset(a)| == |multiset(b)|;
    forall k | 0 <= k < |a|
      ensures a[k] == b[k]
    {
      AscendingRank(a, k);
      AscendingRank(b, k);
      CountPermutation(Below(a[k]), a, b);
      CountPermutation(AtMost(a[k]), a, b);
      assert a[k] in multiset(a);
      OrderStatisticUnique(b, k, a[k], b[k]);
    }
  }

  lemma SortedPermutation(a: seq<nat>, b: seq<nat>)
    requires Permutation(a, b)
    ensures Sorted(a) == Sorted(b)
  {
    AscendingUnique(Sorted(a), Sorted(b));
  }

  /** A percentile depends only on which latencies there are, not on their order. */
  lemma PercentilePermutation(a: seq<nat>, b: seq<nat>, pct: nat)
    requires Permutation(a, b) && pct < 100
    ensures Percentile(a, pct) == Percentile(b, pct)
  {
    assert |multiset(a)| == |multiset(b)|;
    SortedPermutation(a, b);
  }

  lemma PercentilesOrdered(data: seq<nat>, p: nat, q: nat)
    requires p <= q < 100
    ensures Percentile(data, p) <= Percentile(data, q)
  {
    if data != [] {
      RankMonotone(|data|, p, q);
    }
  }

  lemma RankMonotone(n: nat, p: nat, q: nat)
    requires n > 0 && p <= q < 100
    ensures Rank(n, p) <= Rank(n, q)
  {
    TimesMonotone(n - 1, p, q);
  }

  lemma TimesMonotone(n: nat, p: nat, q: nat)
    requires p <= q
    ensures n * p <= n * q
  {
  }

  ghost predicate Dominates(a: seq<nat>, b: seq<nat>) {
    |a| == |b| && forall i :: 0 <= i < |a| ==> a[i] <= b[i]
  }

  lemma {:induction false} DominatedCount(a: seq<nat>, b: seq<nat>, v: nat)
    requires Dominates(a, b)
    ensures Count(AtMost(v), a) >= Count(AtMost(v), b)
  {
    if a != [] {
      DominatedCount(a[..|a| - 1], b[..|b| - 1], v);
    }
  }

  /** Making every latency no larger makes every percentile no larger, though each side is sorted on its own. */
  lemma DominatedPercentile(a: seq<nat>, b: seq<nat>, pct: nat)
    requires Dominates(a, b) && pct < 100
    ensures Percentile(a, pct) <= Percentile(b, pct)
  {
    if a != [] {
      var x, y := Percentile(a, pct), Percentile(b, pct);
      PercentileIsOrderStatistic(a, pct);
      PercentileIsOrderStatistic(b, pct);
      DominatedCount(a, b, y);
      if y < x {
        CountAtMostBelow(a, y, x);
      }
    }
  }

  /** percentiles of judge.go: sorts a copy in place and reads three ranks off it. */
  method Percentiles(data: array<nat>) returns (p50: nat, p90: nat, p99: nat)
    ensures p50 == Percentile(data[..], 50) && p90 == Percentile(data[..], 90) && p99 == Percentile(data[..], 99)
    ensures if data[..] == [] then p50 == p90 == p99 == 0
            else
              && IsNearestRank(data[..], 50, p50) && IsNearestRank(data[..], 90, p90)
              && IsNearestRank(data[..], 99, p99)
    ensures p50 <= p90 <= p99
  {
    var n := data.Length;
    ghost var d := data[..];
    PercentilesOrdered(d, 50, 90);
    PercentilesOrdered(d, 90, 99);
    if n == 0 {
      return 0, 0, 0;
    }
    PercentileIsNearestRank(d, 50);
    PercentileIsNearestRank(d, 90);
    PercentileIsNearestRank(d, 99);
    var sorted := CopyOf(data);
    SortSlice(sorted);
    assert sorted[..] == Sorted(d) && data[..] == d;
    return sorted[..][Rank(n, 50)], sorted[..][Rank(n, 90)], sorted[..][Rank(n, 99)];
  }

  method CopyOf(data: array<nat>) returns (copy: array<nat>)
    ensures fresh(copy) && copy[..] == data[..]
  {
    copy := new nat[data.Length];
    for i := 0 to data.Length
      invariant copy[..i] == data[..i]
    {
      copy[i] := data[i];
    }
    assert copy[..] == data[..];
  }

  /** sort.Slice of the standard library, by its contract: ascending, in place. */
  method SortSlice(a: array<nat>)
    modifies a
    ensures a[..] == Sorted(old(a[..]))
  {
    var s := Sorted(a[..]);
    forall i | 0 <= i < a.Length {
      a[i] := s[i];
    }
    assert a[..] == s;
  }

  // ---------------------------------------------------------------------------------------------------------------
  // The statistics of a run
  // ---------------------------------------------------------------------------------------------------------------

  datatype LocalStats = LocalStats(
    count: nat,
    correctRatio: real,
    p50Us: nat,
    p90Us: nat,
    p99Us: nat,
    score: real)

  predicate IsCorrect(m: Metric) {
    m.isCorrect
  }

  /** The latency a metric contributes, in microseconds and at least 1; none if it was received before it was sent. */
  function LatencyOf(m: Metric): seq<nat> {
    if m.recvTimeNs >= m.sentTimeNs then
      var us := (m.recvTimeNs - m.sentTimeNs) / 1000;
      [if us == 0 then 1 else us]
    else []
  }

  function Latencies(ms: seq<Metric>): seq<nat> {
    FlatMap(LatencyOf, ms)
  }

  function CorrectRatio(ms: seq<Metric>): real
    requires ms != []
  {
    Count(IsCorrect, ms) as real / |ms| as real
  }

  /** A million times the correct ratio, less the 99th percentile. */
  function Score(ratio: real, p99: nat): real {
    ratio * 1000000.0 - p99 as real
  }

  function P99(ms: seq<Metric>): nat {
    Percentile(Latencies(ms), 99)
  }

  /** What the judge reports about the metrics of a run. */
  function Summary(ms: seq<Metric>): LocalStats {
    if ms == [] then LocalStats(0, 0.0, 0, 0, 0, 0.0)
    else
      LocalStats(|ms|, CorrectRatio(ms), Percentile(Latencies(ms), 50), Percentile(Latencies(ms), 90), P99(ms),
        Score(CorrectRatio(ms), P99(ms)))
  }

  // What a report says of the metrics, read off their time stamps.

  /** A metric counts a latency if it is timed, and only the one its time stamps give. */
  lemma LatencyIsMeasured(m: Metric)
    ensures |LatencyOf(m)| == if Timed(m) then 1 else 0
    ensures forall us :: us in LatencyOf(m) <==> TakesUs(m, us)
  {
  }

  function WithinUs(us: nat): Metric -> bool {
    m => Timed(m) && m.recvTimeNs - m.sentTimeNs < 1000 * (us + 1)
  }

  function FasterThanUs(us: nat): Metric -> bool {
    m => Timed(m) && us > 1 && m.recvTimeNs - m.sentTimeNs < 1000 * us
  }

  /**
   * us is the latency of one of the metrics, and counting the timed metrics by speed, the position pct percent of the
   * way from the fastest to the slowest is reached by those within us, not by those faster. 0 if none is timed.
   */
  ghost predicate IsPercentileOf(ms: seq<Metric>, pct: nat, us: nat) {
    var n := Count(Timed, ms);
    if n == 0 then us == 0
    else
      && (exists m :: m in ms && TakesUs(m, us))
      && 100 * Count(FasterThanUs(us), ms) <= (n - 1) * pct < 100 * Count(WithinUs(us), ms)
  }

  /** The report is about exactly these metrics. */
  ghost predicate Reports(stats: LocalStats, ms: seq<Metric>) {
    && stats.count == |ms|
    && IsPercentileOf(ms, 50, stats.p50Us) && IsPercentileOf(ms, 90, stats.p90Us) && IsPercentileOf(ms, 99, stats.p99Us)
    && (ms == [] ==> stats.correctRatio == 0.0 && stats.score == 0.0)
    && (ms != [] ==>
          && stats.correctRatio * |ms| as real == Count(IsCorrect, ms) as real
          && stats.score + stats.p99Us as real == 1000000.0 * stats.correctRatio)
  }

  lemma {:induction false} LatencyCounts(ms: seq<Metric>, us: nat)
    requires us >= 1
    ensures |Latencies(ms)| == Count(Timed, ms)
    ensures Count(Below(us), Latencies(ms)) == Count(FasterThanUs(us), ms)
    ensures Count(AtMost(us), Latencies(ms)) == Count(WithinUs(us), ms)
  {
    if ms != [] {
      var t, m := ms[..|ms| - 1], ms[|ms| - 1];
      LatencyCounts(t, us);
      hide LatencyOf, FasterThanUs, WithinUs, Below, AtMost, Timed;
      CountConcat(Below(us), Latencies(t), LatencyOf(m));
      CountConcat(AtMost(us), Latencies(t), LatencyOf(m));
      OneLatencyCounts(m, us);
    }
  }

  lemma OneLatencyCounts(m: Metric, us: nat)
    requires us >= 1
    ensures |LatencyOf(m)| == if Timed(m) then 1 else 0
    ensures Count(Below(us), LatencyOf(m)) == if FasterThanUs(us)(m) then 1 else 0
    ensures Count(AtMost(us), LatencyOf(m)) == if WithinUs(us)(m) then 1 else 0
  {
    if Timed(m) {
      var x := LatencyOf(m)[0];
      assert LatencyOf(m) == [x];
      CountOne(Below(us), x);
      CountOne(AtMost(us), x);
    }
  }

  lemma PercentileIsOfMetrics(ms: seq<Metric>, pct: nat)
    requires pct < 100
    ensures IsPercentileOf(ms, pct, Percentile(Latencies(ms), pct))
  {
    LatencyCounts(ms, 1);
    if Latencies(ms) != [] {
      var us := Percentile(Latencies(ms), pct);
      PercentileIsNearestRank(Latencies(ms), pct);
      var i := FlatMapMember(LatencyOf, ms, us);
      LatencyIsMeasured(ms[i]);
      assert ms[i] in ms && TakesUs(ms[i], us);
      LatencyCounts(ms, us);
    }
  }

  lemma SummaryReports(ms: seq<Metric>)
    ensures Reports(Summary(ms), ms)
  {
    hide IsPercentileOf, Percentile, Latencies, Count;
    PercentileIsOfMetrics(ms, 50);
    PercentileIsOfMetrics(ms, 90);
    PercentileIsOfMetrics(ms, 99);
    if ms != [] {
      Requotient(Count(IsCorrect, ms) as real, |ms| as real);
    }
  }

  lemma {:induction false} WithinIsFaster(ms: seq<Metric>, a: nat, b: nat)
    requires 1 <= a < b
    ensures Count(WithinUs(a), ms) <= Count(FasterThanUs(b), ms)
  {
    if ms != [] {
      WithinIsFaster(ms[..|ms| - 1], a, b);
    }
  }

  lemma PercentileOfUnique(ms: seq<Metric>, pct: nat, a: nat, b: nat)
    requires IsPercentileOf(ms, pct, a) && IsPercentileOf(ms, pct, b)
    ensures a == b
  {
    if a < b && Count(Timed, ms) > 0 {
      WithinIsFaster(ms, a, b);
    } else if b < a && Count(Timed, ms) > 0 {
      WithinIsFaster(ms, b, a);
    }
  }

  /** Nothing is left open: the metrics determine their report. */
  lemma ReportDetermined(a: LocalStats, b: LocalStats, ms: seq<Metric>)
    requires Reports(a, ms) && Reports(b, ms)
    ensures a == b
  {
    hide IsPercentileOf;
    PercentileOfUnique(ms, 50, a.p50Us, b.p50Us);
    PercentileOfUnique(ms, 90, a.p90Us, b.p90Us);
    PercentileOfUnique(ms, 99, a.p99Us, b.p99Us);
    if ms != [] {
      var n, correct := |ms| as real, Count(IsCorrect, ms) as real;
      assert a.correctRatio * n == correct && b.correctRatio * n == correct;
      SameFactor(a.correctRatio, b.correctRatio, n);
    }
  }

  lemma SameFactor(x: real, y: real, c: real)
    requires c > 0.0 && x * c == y * c
    ensures x == y
  {
    assert (x - y) * c == 0.0;
  }

  const BATCH_SIZE := 8192

  method DrainRingBuffer(rb: RingBuffer) returns (stats: LocalStats)
    requires rb.Valid()
    modifies rb`read
    ensures rb.Valid() && rb.Contents() == []
    ensures Reports(stats, old(rb.Contents())) && stats == Summary(old(rb.Contents()))
  {
    hide Summary, Reports, Held;
    SummaryReports(rb.Contents());
    stats := DrainInBatches(rb, BATCH_SIZE);
  }

  /** The batch size decides how often PopInto is called and nothing else. */
  method DrainInBatches(rb: RingBuffer, batchSize: nat) returns (stats: LocalStats)
    requires rb.Valid() && batchSize > 0
    modifies rb`read
    ensures rb.Valid() && rb.Contents() == []
    ensures stats == Summary(old(rb.Contents()))
  {
    hide Held, Tallied, Summary;
    ghost var whole := rb.Contents();
    assert rb.Contents() == whole[0..];
    var batch := NewBatch(batchSize);
    var latencies: seq<nat> := [];
    var correct, total := 0, 0;
    NothingTallied(whole);
    while true
      invariant rb.Valid() && batch != rb.buf
      invariant total <= |whole| && rb.Contents() == whole[total..]
      invariant Tallied(whole[..total], correct, latencies)
      decreases |whole| - total
    {
      var n;
      n, correct, latencies := TallyBatch(rb, batch, whole, total, correct, latencies);
      if n == 0 {
        break;
      }
      total := total + n;
    }
    assert whole[..total] == whole;
    stats := Report(whole, total, correct, latencies);
  }

  method NewBatch(batchSize: nat) returns (batch: array<Metric>)
    ensures fresh(batch) && batch.Length == batchSize
  {
    batch := new Metric[batchSize](_ => ZERO_METRIC);
  }

  /** One pass of the drain loop, said in terms of the metrics there were at its start. */
  method TallyBatch(rb: RingBuffer, batch: array<Metric>, ghost whole: seq<Metric>, ghost total: nat,
      correct: nat, latencies: seq<nat>) returns (n: nat, correct': nat, latencies': seq<nat>)
    requires rb.Valid() && batch != rb.buf && batch.Length > 0
    requires total <= |whole| && rb.Contents() == whole[total..] && Tallied(whole[..total], correct, latencies)
    modifies rb`read, batch
    ensures rb.Valid() && total + n <= |whole| && rb.Contents() == whole[total + n..]
    ensures n == 0 <==> total == |whole|
    ensures Tallied(whole[..total + n], correct', latencies')
  {
    n := rb.PopInto(batch);
    assert batch[..n] == whole[total..total + n];
    var moreCorrect, moreLatencies := Tally(batch, n);
    TallyMore(whole, total, n, correct, latencies, moreCorrect, moreLatencies);
    correct', latencies' := correct + moreCorrect, latencies + moreLatencies;
  }

  ghost predicate Tallied(ms: seq<Metric>, correct: nat, latencies: seq<nat>) {
    correct == Count(IsCorrect, ms) && latencies == Latencies(ms)
  }

  lemma NothingTallied(whole: seq<Metric>)
    ensures Tallied(whole[..0], 0, [])
  {
  }

  lemma TallyMore(whole: seq<Metric>, k: nat, n: nat, correct: nat, latencies: seq<nat>,
      moreCorrect: nat, moreLatencies: seq<nat>)
    requires k + n <= |whole|
    requires Tallied(whole[..k], correct, latencies) && Tallied(whole[k..k + n], moreCorrect, moreLatencies)
    ensures Tallied(whole[..k + n], correct + moreCorrect, latencies + moreLatencies)
  {
    assert whole[..k + n] == whole[..k] + whole[k..k + n];
    CountConcat(IsCorrect, whole[..k], whole[k..k + n]);
    FlatMapConcat(LatencyOf, whole[..k], whole[k..k + n]);
  }

  method Report(ghost ms: seq<Metric>, total: nat, correct: nat, latencies: seq<nat>) returns (stats: LocalStats)
    requires total == |ms| && Tallied(ms, correct, latencies)
    ensures stats == Summary(ms)
  {
    if total == 0 {
      return LocalStats(0, 0.0, 0, 0, 0, 0.0);
    }
    var ratio := correct as real / total as real;
    var data := new nat[|latencies|](i requires 0 <= i < |latencies| => latencies[i]);
    assert data[..] == latencies;
    var p50, p90, p99 := Percentiles(data);
    stats := LocalStats(total, ratio, p50, p90, p99, Score(ratio, p99));
  }

  /** The inner loop of the drain over one batch. */
  method Tally(batch: array<Metric>, n: nat) returns (correct: nat, latencies: seq<nat>)
    requires n <= batch.Length
    ensures Tallied(batch[..n], correct, latencies)
  {
    correct, latencies := 0, [];
    for i := 0 to n
      invariant Tallied(batch[..i], correct, latencies)
    {
      var m := batch[i];
      assert batch[..i + 1][..i] == batch[..i];
      if m.isCorrect {
        correct := correct + 1;
      }
      if m.recvTimeNs >= m.sentTimeNs {
        var us := (m.recvTimeNs - m.sentTimeNs) / 1000;
        if us == 0 {
          us := 1;
        }
        latencies := latencies + [us];
      }
    }
  }

  // ---------------------------------------------------------------------------------------------------------------
  // What the score depends on
  // ---------------------------------------------------------------------------------------------------------------

  /** The report depends only on the multiset of metrics, not on the order in which a scheduler lets them in. */
  lemma SummaryPermutation(a: seq<Metric>, b: seq<Metric>)
    requires Permutation(a, b)
    ensures Summary(a) == Summary(b)
  {
    assert |multiset(a)| == |multiset(b)|;
    CountPermutation(IsCorrect, a, b);
    FlatMapPermutation(LatencyOf, a, b);
    PercentilePermutation(Latencies(a), Latencies(b), 50);
    PercentilePermutation(Latencies(a), Latencies(b), 90);
    PercentilePermutation(Latencies(a), Latencies(b), 99);
  }

  /** better is worse with every latency no larger and every verdict no worse. */
  ghost predicate NoWorse(better: seq<Metric>, worse: seq<Metric>) {
    && |better| == |worse|
    && forall i :: 0 <= i < |better| ==>
         && (better[i].recvTimeNs >= better[i].sentTimeNs <==> worse[i].recvTimeNs >= worse[i].sentTimeNs)
         && (better[i].recvTimeNs >= better[i].sentTimeNs ==>
               better[i].recvTimeNs - better[i].sentTimeNs <= worse[i].recvTimeNs - worse[i].sentTimeNs)
         && (worse[i].isCorrect ==> better[i].isCorrect)
  }

  lemma {:induction false} NoWorseParts(better: seq<Metric>, worse: seq<Metric>)
    requires NoWorse(better, worse)
    ensures Dominates(Latencies(better), Latencies(worse))
    ensures Count(IsCorrect, better) >= Count(IsCorrect, worse)
  {
    if better != [] {
      var n := |better| - 1;
      NoWorseParts(better[..n], worse[..n]);
      assert Dominates(LatencyOf(better[n]), LatencyOf(worse[n]));
    }
  }

  /** Improving any metrics of a run never lowers its score. */
  lemma ScoreMonotone(better: seq<Metric>, worse: seq<Metric>)
    requires NoWorse(better, worse)
    ensures Summary(better).score >= Summary(worse).score
  {
    if better != [] {
      NoWorseParts(better, worse);
      DominatedPercentile(Latencies(better), Latencies(worse), 99);
      QuotientMonotone(Count(IsCorrect, worse) as real, Count(IsCorrect, better) as real, |better| as real);
    }
  }

  /** The metrics a run is measured against: a run without metrics scores as one order, wrong and without delay. */
  function RunLength(ms: seq<Metric>): (n: nat)
    ensures n > 0
  {
    if ms == [] then 1 else |ms|
  }

  /**
   * Correctness does not dominate latency unconditionally: of any two runs, of whatever lengths, the better score goes
   * to the larger correct ratio exactly when the lead, a million per order, outweighs the latency it costs.
   */
  lemma ScoreComparison(a: seq<Metric>, b: seq<Metric>)
    ensures var m, n := RunLength(a) as real, RunLength(b) as real;
      Summary(a).score > Summary(b).score <==>
      m * n * (P99(a) as real - P99(b) as real)
        < 1000000.0 * (Count(IsCorrect, a) as real * n - Count(IsCorrect, b) as real * m)
  {
    var m, n := RunLength(a) as real, RunLength(b) as real;
    var ca, cb := Count(IsCorrect, a) as real, Count(IsCorrect, b) as real;
    ScoreOfRun(a);
    ScoreOfRun(b);
    hide Summary, Count, P99, Score;
    ScaledComparison(m, n, ca, cb, P99(a), P99(b));
  }

  lemma ScoreOfRun(ms: seq<Metric>)
    ensures Summary(ms).score == Score(Count(IsCorrect, ms) as real / RunLength(ms) as real, P99(ms))
  {
  }

  const SLOW := ZERO_METRIC.(recvTimeNs := 2000000000, isCorrect := true)
  const FAST := ZERO_METRIC.(recvTimeNs := 1000)

  /** So a correct answer after two seconds loses to a wrong one after a microsecond. */
  lemma CorrectnessCanLose()
    ensures Count(IsCorrect, [SLOW]) > Count(IsCorrect, [FAST]) && Summary([SLOW]).score < Summary([FAST]).score
  {
    hide Summary, Count;
    ScoreOfOne(SLOW);
    ScoreOfOne(FAST);
  }

  lemma ScoreOfOne(m: Metric)
    requires |LatencyOf(m)| == 1
    ensures Count(IsCorrect, [m]) == if m.isCorrect then 1 else 0
    ensures Summary([m]).score == Score(if m.isCorrect then 1.0 else 0.0, LatencyOf(m)[0])
  {
    CountOne(IsCorrect, m);
    FlatMapOne(LatencyOf, m);
    PercentileIsOrderStatistic(LatencyOf(m), 99);
    assert LatencyOf(m) == [LatencyOf(m)[0]];
  }

  lemma ScaledComparison(m: real, n: real, ca: real, cb: real, pa: nat, pb: nat)
    requires m > 0.0 && n > 0.0
    ensures Score(ca / m, pa) > Score(cb / n, pb)
      <==> m * n * (pa as real - pb as real) < 1000000.0 * (ca * n - cb * m)
  {
    var gap, qa, qb, d := Score(ca / m, pa) - Score(cb / n, pb), ca / m, cb / n, pa as real - pb as real;
    assert gap == 1000000.0 * (qa - qb) - d;
    Distribute(m * n, qa - qb, d);
    ScaledQuotients(m, n, ca, cb);
    PositiveProduct(m, n);
    PositiveFactor(m * n, gap);
  }

  lemma ScaledQuotients(m: real, n: real, ca: real, cb: real)
    requires m > 0.0 && n > 0.0
    ensures m * n * (ca / m - cb / n) == ca * n - cb * m
  {
    var qa, qb := ca / m, cb / n;
    assert m * qa == ca && n * qb == cb;
    assert m * n * (qa - qb) == (m * qa) * n - (n * qb) * m;
  }

  lemma PositiveProduct(m: real, n: real)
    requires m > 0.0 && n > 0.0
    ensures m * n > 0.0
  {
  }

  lemma Distribute(n: real, q: real, d: real)
    ensures n * (1000000.0 * q - d) == 1000000.0 * (n * q) - n * d
  {
  }

  lemma PositiveFactor(n: real, x: real)
    requires n > 0.0
    ensures n * x > 0.0 <==> x > 0.0
  {
    if x > 0.0 {
      assert n * x > 0.0;
    } else {
      assert n * -x >= 0.0;
    }
  }

  /** A run without a wrong verdict scores a million less its 99th percentile. */
  lemma {:induction false} AllCorrectScore(ms: seq<Metric>)
    requires ms != [] && forall m :: m in ms ==> m.isCorrect
    ensures Summary(ms).correctRatio == 1.0
    ensures Summary(ms).score == 1000000.0 - Summary(ms).p99Us as real
  {
    CountAll(IsCorrect, ms);
    QuotientCancels(1.0, |ms| as real);
  }
}
