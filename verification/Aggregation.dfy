/** Windowed aggregation per contestant, maintained incrementally and proved equal to a group-by of what was added. */
module Aggregation {
  import opened Sequences
  import opened Telemetry
  import opened Scoring

  /** One Add, after "" has become "unknown" and 0 has become 1. */
  datatype Sample<K(==)> = Sample(contestantId: K, latencyUs: nat, correct: bool)

  function Normalize(contestantId: string, latencyUs: nat, correct: bool): Sample<string> {
    Sample(if contestantId == "" then "unknown" else contestantId, if latencyUs == 0 then 1 else latencyUs, correct)
  }

  /** The samples of one contestant, in order. */
  function Of<K(==)>(log: seq<Sample<K>>, id: K): seq<Sample<K>> {
    if log == [] then []
    else
      var s := log[|log| - 1];
      Of(log[..|log| - 1], id) + (if s.contestantId == id then [s] else [])
  }

  function Latencies<K>(group: seq<Sample<K>>): (ls: seq<nat>)
    ensures |ls| == |group|
  {
    if group == [] then [] else Latencies(group[..|group| - 1]) + [group[|group| - 1].latencyUs]
  }

  predicate WasCorrect<K>(s: Sample<K>) {
    s.correct
  }

  /** A histogram holds the multiset of values handed to it; what a quantile of it is, is the library's business. */
  type Histogram = multiset<nat>

  datatype ContestantWindow = ContestantWindow(
    contestantId: string,
    windowStart: int,
    windowEnd: int,
    count: nat,
    correctCount: nat,
    correctRatio: real,
    p50Us: nat,
    p90Us: nat,
    p99Us: nat,
    minUs: nat,
    maxUs: nat,
    avgUs: nat,
    sustainedTPS: real,
    score: real,
    scoreLatency: real,
    scoreThroughput: real,
    scoreCorrectness: real)

  datatype Library = Library(exp: real -> real, quantile: (Histogram, nat) -> nat)

  const NANOS_PER_SECOND := 1000000000

  function WindowSeconds(startNs: int, endNs: int): (secs: real)
    ensures secs > 0.0
  {
    if endNs <= startNs then 1.0 else (endNs - startNs) as real / NANOS_PER_SECOND as real
  }

  /** Unix() of a time given in nanoseconds. */
  function UnixSeconds(ns: int): int {
    ns / NANOS_PER_SECOND
  }

  /** w is the window of the samples in group: recomputed from scratch, not from the running totals. */
  ghost predicate IsWindowOf(w: ContestantWindow, group: seq<Sample<string>>, startNs: int, endNs: int,
      lib: Library, params: ScoringParams)
    requires group != []
  {
    var ls := Latencies(group);
    var hist := multiset(ls);
    && w.contestantId == group[0].contestantId
    && w.windowStart == UnixSeconds(startNs) && w.windowEnd == UnixSeconds(endNs)
    && w.count == |group|
    && w.correctCount == Count(WasCorrect, group)
    && w.correctRatio == w.correctCount as real / w.count as real
    && w.p50Us == lib.quantile(hist, 50) && w.p90Us == lib.quantile(hist, 90) && w.p99Us == lib.quantile(hist, 99)
    && IsMinimum(ls, w.minUs) && IsMaximum(ls, w.maxUs)
    && w.avgUs == RoundedMean(Sum(ls), |group|)
    && w.sustainedTPS == w.count as real / WindowSeconds(startNs, endNs)
    && w.score == ComputeScore(lib.exp, w.p50Us as real, w.p90Us as real, w.p99Us as real, w.correctRatio,
                               w.sustainedTPS, params)
    && w.scoreLatency == LatencyScore(lib.exp, w.p50Us as real, w.p90Us as real, w.p99Us as real, params)
    && w.scoreThroughput == ThroughputScore(w.sustainedTPS, params)
    && w.scoreCorrectness == CorrectnessScore(w.correctRatio)
  }

  /** windows holds, for each of ids and nobody else, the one window of that contestant's samples in log. */
  ghost predicate GroupsOf(windows: seq<ContestantWindow>, log: seq<Sample<string>>, ids: set<string>,
      startNs: int, endNs: int, lib: Library, params: ScoringParams)
  {
    && (forall i, j :: 0 <= i < j < |windows| ==> windows[i].contestantId != windows[j].contestantId)
    && (forall id :: id in ids ==> exists i :: 0 <= i < |windows| && windows[i].contestantId == id)
    && (forall i :: 0 <= i < |windows| ==>
          windows[i].contestantId in ids && Of(log, windows[i].contestantId) != []
          && IsWindowOf(windows[i], Of(log, windows[i].contestantId), startNs, endNs, lib, params))
  }

  ghost function Contestants(log: seq<Sample<string>>): set<string> {
    set s | s in log :: s.contestantId
  }

  /** The windows are the group-by of log: one per contestant that occurs in it, each that contestant's own. */
  ghost predicate IsGroupBy(windows: seq<ContestantWindow>, log: seq<Sample<string>>, startNs: int, endNs: int,
      lib: Library, params: ScoringParams)
  {
    GroupsOf(windows, log, Contestants(log), startNs, endNs, lib, params)
  }

  function Get<K>(m: map<K, nat>, id: K): nat {
    if id in m then m[id] else 0
  }

  /** The running totals of one contestant. */
  datatype Totals = Totals(hist: Histogram, sum: nat, cnt: nat, ok: nat, min: nat, max: nat)

  /** The totals are those of the group, and the zero sentinel of an empty minimum is not mistaken for one. */
  ghost predicate Tracks<K(!new)>(t: Totals, group: seq<Sample<K>>) {
    var ls := Latencies(group);
    && t.hist == multiset(ls) && t.sum == Sum(ls) && t.cnt == |group| && t.ok == Count(WasCorrect, group)
    && (group == [] ==> t.min == 0 && t.max == 0)
    && (group != [] ==> IsMinimum(ls, t.min) && IsMaximum(ls, t.max) && t.min >= 1)
  }

  function AddTo<K>(t: Totals, s: Sample<K>): Totals {
    Totals(t.hist + multiset{s.latencyUs}, t.sum + s.latencyUs, t.cnt + 1, t.ok + (if s.correct then 1 else 0),
      if t.min == 0 || s.latencyUs < t.min then s.latencyUs else t.min,
      if s.latencyUs > t.max then s.latencyUs else t.max)
  }

  lemma LatenciesSnoc<K>(group: seq<Sample<K>>, s: Sample<K>)
    ensures Latencies(group + [s]) == Latencies(group) + [s.latencyUs]
  {
    assert (group + [s])[..|group|] == group;
  }

  lemma SumSnoc(ls: seq<nat>, x: nat)
    ensures Sum(ls + [x]) == Sum(ls) + x
  {
    assert (ls + [x])[..|ls|] == ls;
  }

  lemma SumsMore<K>(group: seq<Sample<K>>, s: Sample<K>)
    ensures var ls, more := Latencies(group), Latencies(group + [s]);
      && more == ls + [s.latencyUs] && multiset(more) == multiset(ls) + multiset{s.latencyUs}
      && Sum(more) == Sum(ls) + s.latencyUs
    ensures Count(WasCorrect, group + [s]) == Count(WasCorrect, group) + if s.correct then 1 else 0
  {
    LatenciesSnoc(group, s);
    SumSnoc(Latencies(group), s.latencyUs);
    CountConcat(WasCorrect, group, [s]);
    CountOne(WasCorrect, s);
  }

  lemma TracksMore<K(!new)>(t: Totals, group: seq<Sample<K>>, s: Sample<K>)
    requires Tracks(t, group) && s.latencyUs >= 1
    ensures Tracks(AddTo(t, s), group + [s])
  {
    hide Latencies, Sum, Count, IsMinimum, IsMaximum;
    SumsMore(group, s);
    ExtremesMore(Latencies(group), t.min, t.max, s.latencyUs);
  }

  /** The comparisons with the zero sentinel maintain the real extremes of positive values. */
  lemma ExtremesMore(ls: seq<nat>, min: nat, max: nat, x: nat)
    requires x >= 1 && (ls == [] ==> min == 0 && max == 0)
    requires ls != [] ==> IsMinimum(ls, min) && IsMaximum(ls, max) && min >= 1
    ensures var m := if min == 0 || x < min then x else min; m >= 1 && IsMinimum(ls + [x], m)
    ensures IsMaximum(ls + [x], if x > max then x else max)
  {
    var more := ls + [x];
    assert forall y :: y in more <==> y in ls || y == x;
  }

  // ---------------------------------------------------------------------------------------------------------------
  // The six maps
  // ---------------------------------------------------------------------------------------------------------------

  datatype Maps<K(==)> = Maps(
    hists: map<K, Histogram>,
    sumUs: map<K, nat>,
    cnt: map<K, nat>,
    ok: map<K, nat>,
    minUs: map<K, nat>,
    maxUs: map<K, nat>)

  function TotalsIn<K(==)>(m: Maps<K>, id: K): Totals {
    Totals(HistIn(m.hists, id), Get(m.sumUs, id), Get(m.cnt, id), Get(m.ok, id),
      Get(m.minUs, id), Get(m.maxUs, id))
  }

  ghost predicate SameKeys<K(!new)>(m: Maps<K>) {
    forall id :: id in m.hists <==> id in m.cnt
  }

  ghost predicate KeysMatch<K(!new)>(m: Maps<K>, log: seq<Sample<K>>) {
    && SameKeys(m)
    && (forall s :: s in log ==> s.contestantId in m.cnt)
    && (forall id :: id in m.cnt ==> Of(log, id) != [])
  }

  ghost predicate TotalsMatch<K(!new)>(m: Maps<K>, log: seq<Sample<K>>) {
    forall id :: Tracks(TotalsIn(m, id), Of(log, id))
  }

  /** Every contestant of the log, and nobody else, has totals, and they are those of the contestant's samples. */
  ghost predicate Consistent<K(!new)>(m: Maps<K>, log: seq<Sample<K>>) {
    KeysMatch(m, log) && TotalsMatch(m, log)
  }

  lemma OfSnoc<K>(log: seq<Sample<K>>, s: Sample<K>, id: K)
    ensures Of(log + [s], id) == if id == s.contestantId then Of(log, id) + [s] else Of(log, id)
  {
    assert (log + [s])[..|log|] == log;
  }

  /** m' is m with sample s recorded: s counts for its contestant, every other contestant is as before. */
  ghost predicate Records<K(!new)>(m: Maps<K>, m': Maps<K>, s: Sample<K>) {
    && SameKeys(m')
    && (forall x :: x in m'.cnt <==> x in m.cnt || x == s.contestantId)
    && TotalsIn(m', s.contestantId) == AddTo(TotalsIn(m, s.contestantId), s)
    && forall x :: x != s.contestantId ==> TotalsIn(m', x) == TotalsIn(m, x)
  }

  lemma TracksAfter<K(!new)>(m: Maps<K>, m': Maps<K>, log: seq<Sample<K>>, s: Sample<K>, x: K)
    requires Records(m, m', s) && s.latencyUs >= 1 && Tracks(TotalsIn(m, x), Of(log, x))
    ensures Tracks(TotalsIn(m', x), Of(log + [s], x))
  {
    OfSnoc(log, s, x);
    if x == s.contestantId {
      TracksMore(TotalsIn(m, x), Of(log, x), s);
    }
  }

  lemma TotalsMatchMore<K(!new)>(m: Maps<K>, m': Maps<K>, log: seq<Sample<K>>, s: Sample<K>)
    requires TotalsMatch(m, log) && Records(m, m', s) && s.latencyUs >= 1
    ensures TotalsMatch(m', log + [s])
  {
    forall x
      ensures Tracks(TotalsIn(m', x), Of(log + [s], x))
    {
      TracksAfter(m, m', log, s, x);
    }
  }

  lemma KeysMatchMore<K(!new)>(m: Maps<K>, m': Maps<K>, log: seq<Sample<K>>, s: Sample<K>)
    requires KeysMatch(m, log) && SameKeys(m') && forall x :: x in m'.cnt <==> x in m.cnt || x == s.contestantId
    ensures KeysMatch(m', log + [s])
  {
    forall x | x in m'.cnt
      ensures Of(log + [s], x) != []
    {
      OfSnoc(log, s, x);
    }
  }

  /** One more sample: only its contestant's totals change, and they stay those of its samples. */
  lemma ConsistentMore<K(!new)>(m: Maps<K>, m': Maps<K>, log: seq<Sample<K>>, s: Sample<K>)
    requires Consistent(m, log) && Records(m, m', s) && s.latencyUs >= 1
    ensures Consistent(m', log + [s])
  {
    KeysMatchMore(m, m', log, s);
    TotalsMatchMore(m, m', log, s);
  }

  /** The maps once a contestant is known to have a histogram and extremes. */
  function Ensured<K(==)>(m: Maps<K>, id: K): Maps<K> {
    if id in m.hists then m
    else m.(hists := m.hists[id := multiset{}], minUs := m.minUs[id := 0], maxUs := m.maxUs[id := 0])
  }

  function Bump<K(==)>(m: map<K, nat>, id: K, amount: nat): map<K, nat> {
    m[id := Get(m, id) + amount]
  }

  function Lower<K(==)>(m: map<K, nat>, id: K, us: nat): map<K, nat> {
    if Get(m, id) == 0 || us < Get(m, id) then m[id := us] else m
  }

  function Raise<K(==)>(m: map<K, nat>, id: K, us: nat): map<K, nat> {
    if us > Get(m, id) then m[id := us] else m
  }

  /** The maps after the locked part of Add. */
  function Recorded<K(==)>(m: Maps<K>, s: Sample<K>): Maps<K> {
    Counted(Ensured(m, s.contestantId), s)
  }

  function Counted<K(==)>(e: Maps<K>, s: Sample<K>): Maps<K> {
    var id, us := s.contestantId, s.latencyUs;
    Maps(
      e.hists[id := HistIn(e.hists, id) + multiset{us}],
      Bump(e.sumUs, id, us),
      Bump(e.cnt, id, 1),
      if s.correct then Bump(e.ok, id, 1) else e.ok,
      Lower(e.minUs, id, us),
      Raise(e.maxUs, id, us))
  }

  lemma BumpAt<K(!new)>(m: map<K, nat>, id: K, amount: nat, x: K)
    ensures Get(Bump(m, id, amount), x) == Get(m, x) + (if x == id then amount else 0)
    ensures Bump(m, id, amount).Keys == m.Keys + {id}
  {
  }

  lemma EnsuredTotals<K(!new)>(m: Maps<K>, id: K, x: K)
    requires id !in m.hists ==> Get(m.minUs, id) == 0 && Get(m.maxUs, id) == 0
    ensures TotalsIn(Ensured(m, id), x) == TotalsIn(m, x)
  {
  }

  lemma ExtremesAt<K>(m: map<K, nat>, id: K, us: nat, x: K)
    ensures Get(Lower(m, id, us), x)
      == if x == id && (Get(m, id) == 0 || us < Get(m, id)) then us else Get(m, x)
    ensures Get(Raise(m, id, us), x) == if x == id && us > Get(m, id) then us else Get(m, x)
  {
  }

  function HistIn<K(==)>(hists: map<K, Histogram>, id: K): Histogram {
    if id in hists then hists[id] else multiset{}
  }

  lemma HistAt<K>(hists: map<K, Histogram>, id: K, us: nat, x: K)
    ensures HistIn(hists[id := HistIn(hists, id) + multiset{us}], x)
      == if x == id then HistIn(hists, x) + multiset{us} else HistIn(hists, x)
  {
  }

  lemma CountedTotals<K(!new)>(e: Maps<K>, s: Sample<K>, x: K)
    ensures TotalsIn(Counted(e, s), x) == if x == s.contestantId then AddTo(TotalsIn(e, x), s) else TotalsIn(e, x)
  {
    hide Get, HistIn, Bump, Lower, Raise;
    var id, us := s.contestantId, s.latencyUs;
    HistAt(e.hists, id, us, x);
    BumpAt(e.sumUs, id, us, x);
    BumpAt(e.cnt, id, 1, x);
    BumpAt(e.ok, id, 1, x);
    ExtremesAt(e.minUs, id, us, x);
    ExtremesAt(e.maxUs, id, us, x);
  }

  lemma RecordedTotals<K(!new)>(m: Maps<K>, s: Sample<K>, x: K)
    requires s.contestantId !in m.hists ==> Get(m.minUs, s.contestantId) == 0 && Get(m.maxUs, s.contestantId) == 0
    ensures TotalsIn(Recorded(m, s), x)
      == if x == s.contestantId then AddTo(TotalsIn(m, x), s) else TotalsIn(m, x)
  {
    EnsuredTotals(m, s.contestantId, x);
    CountedTotals(Ensured(m, s.contestantId), s, x);
    hide TotalsIn, AddTo, Counted, Ensured;
  }

  lemma RecordedRecords<K(!new)>(m: Maps<K>, s: Sample<K>)
    requires SameKeys(m)
    requires s.contestantId !in m.hists ==> Get(m.minUs, s.contestantId) == 0 && Get(m.maxUs, s.contestantId) == 0
    ensures Records(m, Recorded(m, s), s)
  {
    forall x
      ensures TotalsIn(Recorded(m, s), x) == if x == s.contestantId then AddTo(TotalsIn(m, x), s) else TotalsIn(m, x)
    {
      RecordedTotals(m, s, x);
    }
  }

  lemma AddKeeps<K(!new)>(m: Maps<K>, m': Maps<K>, log: seq<Sample<K>>, s: Sample<K>)
    requires Consistent(m, log) && s.latencyUs >= 1 && m' == Recorded(m, s)
    ensures Consistent(m', log + [s])
  {
    if s.contestantId !in m.hists {
      UnknownIsZero(m, log, s.contestantId);
    }
    RecordedRecords(m, s);
    ConsistentMore(m, m', log, s);
  }

  /** A contestant without a histogram has no samples, so all its totals read as zero. */
  lemma UnknownIsZero<K(!new)>(m: Maps<K>, log: seq<Sample<K>>, id: K)
    requires Consistent(m, log) && id !in m.hists
    ensures Get(m.minUs, id) == 0 && Get(m.maxUs, id) == 0
  {
    OfAbsent(log, id);
    assert Tracks(TotalsIn(m, id), Of(log, id));
  }

  lemma {:induction false} OfAbsent<K(!new)>(log: seq<Sample<K>>, id: K)
    requires forall s :: s in log ==> s.contestantId != id
    ensures Of(log, id) == []
  {
    if log != [] {
      OfAbsent(log[..|log| - 1], id);
    }
  }

  lemma {:induction false} OfMember<K>(log: seq<Sample<K>>, id: K)
    ensures forall s :: s in Of(log, id) ==> s.contestantId == id && s in log
  {
    if log != [] {
      OfMember(log[..|log| - 1], id);
    }
  }

  /** A window's summary figures stay within its extremes and its count. */
  lemma WindowBounds(w: ContestantWindow, group: seq<Sample<string>>, startNs: int, endNs: int,
      lib: Library, params: ScoringParams)
    requires group != [] && IsWindowOf(w, group, startNs, endNs, lib, params)
    ensures w.minUs <= w.avgUs <= w.maxUs && w.correctCount <= w.count && 0.0 <= w.correctRatio <= 1.0
  {
    RoundedMeanBounds(Latencies(group), w.minUs, w.maxUs);
    QuotientBounds(w.correctCount, w.count, 0, 1);
  }

  /** The score a flush publishes is between 0 and 100. */
  lemma WindowScoreBounds(w: ContestantWindow, group: seq<Sample<string>>, startNs: int, endNs: int,
      lib: Library, params: ScoringParams)
    requires group != [] && ExpLike(lib.exp) && ValidParams(params)
    requires IsWindowOf(w, group, startNs, endNs, lib, params)
    ensures 0.0 <= w.score <= 100.0
  {
    WindowBounds(w, group, startNs, endNs, lib, params);
    Telemetry.QuotientMonotone(0.0, |group| as real, WindowSeconds(startNs, endNs));
    ScoreBounds(lib.exp, w.p50Us as real, w.p90Us as real, w.p99Us as real, w.correctRatio, w.sustainedTPS, params);
  }

  /** A thousand million nanoseconds are a second, and an empty window is taken as one second. */
  lemma WindowSecondsAre(startNs: int, endNs: int)
    ensures endNs > startNs ==> 1000000000.0 * WindowSeconds(startNs, endNs) == (endNs - startNs) as real
    ensures endNs <= startNs ==> WindowSeconds(startNs, endNs) == 1.0
  {
  }

  /** The rate is the count over the window's length. */
  lemma WindowRate(w: ContestantWindow, group: seq<Sample<string>>, startNs: int, endNs: int,
      lib: Library, params: ScoringParams)
    requires group != [] && IsWindowOf(w, group, startNs, endNs, lib, params)
    ensures w.sustainedTPS * WindowSeconds(startNs, endNs) == w.count as real
  {
    hide WindowSeconds, ComputeScore, LatencyScore, ThroughputScore, CorrectnessScore, RoundedMean, UnixSeconds,
      Latencies, Sum, Count, IsMinimum, IsMaximum;
    var count, secs := w.count as real, WindowSeconds(startNs, endNs);
    QuotientTimes(w.sustainedTPS, count, secs);
  }

  /** The ratio is the correct answers over all. */
  lemma WindowRatio(w: ContestantWindow, group: seq<Sample<string>>, startNs: int, endNs: int,
      lib: Library, params: ScoringParams)
    requires group != [] && IsWindowOf(w, group, startNs, endNs, lib, params)
    ensures w.correctRatio * w.count as real == w.correctCount as real
  {
    hide WindowSeconds, ComputeScore, LatencyScore, ThroughputScore, CorrectnessScore, RoundedMean, UnixSeconds,
      Latencies, Sum, Count, IsMinimum, IsMaximum;
    var count, correct := w.count as real, w.correctCount as real;
    QuotientTimes(w.correctRatio, correct, count);
  }

  lemma QuotientTimes(q: real, x: real, c: real)
    requires c > 0.0 && q == x / c
    ensures q * c == x
  {
  }

  /** A window is stamped with the whole seconds of its start and end, and its average is the nearest whole number. */
  lemma WindowStamps(w: ContestantWindow, group: seq<Sample<string>>, startNs: int, endNs: int,
      lib: Library, params: ScoringParams)
    requires group != [] && IsWindowOf(w, group, startNs, endNs, lib, params)
    ensures 1000000000 * w.windowStart <= startNs < 1000000000 * (w.windowStart + 1)
    ensures 1000000000 * w.windowEnd <= endNs < 1000000000 * (w.windowEnd + 1)
    ensures 2 * (w.avgUs * w.count) <= 2 * Sum(Latencies(group)) + w.count < 2 * ((w.avgUs + 1) * w.count)
  {
    WindowParts(w, group, startNs, endNs, lib, params);
    hide IsWindowOf, RoundedMean, Latencies, Sum, WindowSeconds;
    RoundedMeanIsNearest(Sum(Latencies(group)), |group|);
  }

  lemma WindowParts(w: ContestantWindow, group: seq<Sample<string>>, startNs: int, endNs: int,
      lib: Library, params: ScoringParams)
    requires group != [] && IsWindowOf(w, group, startNs, endNs, lib, params)
    ensures w.count == |group| && w.sustainedTPS == w.count as real / WindowSeconds(startNs, endNs)
    ensures w.correctRatio == w.correctCount as real / w.count as real
    ensures w.avgUs == RoundedMean(Sum(Latencies(group)), |group|)
    ensures w.windowStart == UnixSeconds(startNs) && w.windowEnd == UnixSeconds(endNs)
  {
  }

  /** The score of a window is made of the sub-scores shown beside it, those of its own figures. */
  lemma WindowScoresAddUp(w: ContestantWindow, group: seq<Sample<string>>, startNs: int, endNs: int,
      lib: Library, params: ScoringParams)
    requires group != [] && IsWindowOf(w, group, startNs, endNs, lib, params)
    ensures 10.0 * w.score == 4.0 * w.scoreLatency + 3.0 * w.scoreThroughput + 3.0 * w.scoreCorrectness
  {
    hide RoundedMean, Latencies, Sum, WindowSeconds, LatencyScore, ThroughputScore, CorrectnessScore, ComputeScore,
      UnixSeconds, Count, IsMinimum, IsMaximum;
    ScoreWeights(lib.exp, w.p50Us as real, w.p90Us as real, w.p99Us as real, w.correctRatio, w.sustainedTPS, params);
  }

  /** The percentiles of a window come in order if a higher quantile of a histogram is never lower. */
  lemma WindowPercentilesOrdered(w: ContestantWindow, group: seq<Sample<string>>, startNs: int, endNs: int,
      lib: Library, params: ScoringParams)
    requires group != [] && IsWindowOf(w, group, startNs, endNs, lib, params)
    requires forall h, q, r :: q <= r ==> lib.quantile(h, q) <= lib.quantile(h, r)
    ensures w.p50Us <= w.p90Us <= w.p99Us
  {
  }

  method MakeWindow(id: string, t: Totals, ghost group: seq<Sample<string>>, startNs: int, endNs: int,
      lib: Library, params: ScoringParams) returns (w: ContestantWindow)
    requires Tracks(t, group) && group != [] && group[0].contestantId == id
    ensures IsWindowOf(w, group, startNs, endNs, lib, params)
  {
    var windowSecs := WindowSeconds(startNs, endNs);
    var c := t.cnt;
    var ratio := t.ok as real / c as real;
    var avg := (t.sum as real / c as real + 0.5).Floor;
    var p50 := lib.quantile(t.hist, 50);
    var p90 := lib.quantile(t.hist, 90);
    var p99 := lib.quantile(t.hist, 99);
    var sustainedTPS := c as real / windowSecs;
    var sL, sT, sC, total := SubScores(p50 as real, p90 as real, p99 as real, ratio, sustainedTPS, lib, params);
    w := ContestantWindow(id, UnixSeconds(startNs), UnixSeconds(endNs), c, t.ok, ratio, p50, p90, p99,
      t.min, t.max, avg, sustainedTPS, total, sL, sT, sC);
  }

  /** The scores a flush computes in line are those of ComputeScore. */
  method SubScores(p50: real, p90: real, p99: real, ratio: real, sustainedTPS: real, lib: Library,
      params: ScoringParams) returns (sL: real, sT: real, sC: real, total: real)
    ensures total == ComputeScore(lib.exp, p50, p90, p99, ratio, sustainedTPS, params)
    ensures sL == LatencyScore(lib.exp, p50, p90, p99, params)
    ensures sT == ThroughputScore(sustainedTPS, params) && sC == CorrectnessScore(ratio)
  {
    var lComposite := 0.2 * p50 + 0.3 * p90 + 0.5 * p99;
    var decay := -params.lambda * Scoring.Max(0.0, lComposite - params.lTarget);
    sL := 100.0 * lib.exp(decay);
    sT := 100.0 * CappedQuotient(sustainedTPS, params.tTarget);
    sC := 100.0 * (ratio * ratio * ratio * ratio);
    assert decay == Decay(p50, p90, p99, params);
    assert sL == LatencyScore(lib.exp, p50, p90, p99, params);
    assert sT == ThroughputScore(sustainedTPS, params);
    assert sC == CorrectnessScore(ratio);
    total := WEIGHT_LATENCY * sL + WEIGHT_THROUGHPUT * sT + WEIGHT_CORRECTNESS * sC;
  }

  lemma KnownContestants(m: Maps<string>, log: seq<Sample<string>>)
    requires KeysMatch(m, log)
    ensures m.cnt.Keys == Contestants(log)
  {
    forall id | id in m.cnt
      ensures id in Contestants(log)
    {
      OfMember(log, id);
      assert Of(log, id)[0] in Of(log, id);
    }
  }

  /** The order in which one range over a map happens to visit its keys. */
  method SomeOrder<K(==)>(keys: set<K>) returns (order: seq<K>)
    ensures NoDuplicates(order) && forall k :: k in order <==> k in keys
  {
    order := [];
    var todo := keys;
    while todo != {}
      invariant NoDuplicates(order) && todo <= keys
      invariant forall k :: k in order <==> k in keys && k !in todo
      decreases |todo|
    {
      var k :| k in todo;
      order := order + [k];
      todo := todo - {k};
    }
  }

  method WindowsOf(m: Maps<string>, ghost log: seq<Sample<string>>, startNs: int, endNs: int,
      lib: Library, params: ScoringParams) returns (out: seq<ContestantWindow>)
    requires Consistent(m, log)
    ensures GroupsOf(out, log, m.cnt.Keys, startNs, endNs, lib, params)
  {
    var order := SomeOrder(m.cnt.Keys);
    out := WindowsInOrder(m, order, log, startNs, endNs, lib, params);
    WindowsAreGroups(out, order, log, m.cnt.Keys, startNs, endNs, lib, params);
  }

  /** The flush loop. */
  method WindowsInOrder(m: Maps<string>, order: seq<string>, ghost log: seq<Sample<string>>, startNs: int, endNs: int,
      lib: Library, params: ScoringParams) returns (out: seq<ContestantWindow>)
    requires Consistent(m, log) && forall k :: k in order ==> k in m.cnt
    ensures AreTheirWindows(out, order, log, startNs, endNs, lib, params)
  {
    out := [];
    for i := 0 to |order|
      invariant AreTheirWindows(out, order[..i], log, startNs, endNs, lib, params)
    {
      assert order[i] in order;
      var w := WindowOf(m, order[i], log, startNs, endNs, lib, params);
      TheirWindowsSnoc(out, order[..i], w, order[i], log, startNs, endNs, lib, params);
      PrefixSnoc(order, i);
      out := out + [w];
    }
    PrefixWhole(order);
  }

  ghost predicate AreTheirWindows(out: seq<ContestantWindow>, order: seq<string>, log: seq<Sample<string>>,
      startNs: int, endNs: int, lib: Library, params: ScoringParams)
  {
    var n := |order|;
    |out| == n
    && (n == 0 || (AreTheirWindows(out[..n - 1], order[..n - 1], log, startNs, endNs, lib, params)
                   && IsItsWindow(out[n - 1], order[n - 1], log, startNs, endNs, lib, params)))
  }

  lemma TheirWindowsSnoc(out: seq<ContestantWindow>, order: seq<string>, w: ContestantWindow, id: string,
      log: seq<Sample<string>>, startNs: int, endNs: int, lib: Library, params: ScoringParams)
    requires AreTheirWindows(out, order, log, startNs, endNs, lib, params)
    requires IsItsWindow(w, id, log, startNs, endNs, lib, params)
    ensures AreTheirWindows(out + [w], order + [id], log, startNs, endNs, lib, params)
  {
    SnocPrefix(out, w);
    SnocPrefix(order, id);
  }

  lemma {:induction false} TheirWindowsAt(out: seq<ContestantWindow>, order: seq<string>, log: seq<Sample<string>>,
      startNs: int, endNs: int, lib: Library, params: ScoringParams, j: nat)
    requires AreTheirWindows(out, order, log, startNs, endNs, lib, params) && j < |out|
    ensures IsItsWindow(out[j], order[j], log, startNs, endNs, lib, params)
  {
    hide IsItsWindow, IsWindowOf;
    var n := |order|;
    if j < n - 1 {
      TheirWindowsAt(out[..n - 1], order[..n - 1], log, startNs, endNs, lib, params, j);
    }
  }

  method WindowOf(m: Maps<string>, id: string, ghost log: seq<Sample<string>>, startNs: int, endNs: int,
      lib: Library, params: ScoringParams) returns (w: ContestantWindow)
    requires Consistent(m, log) && id in m.cnt
    ensures IsItsWindow(w, id, log, startNs, endNs, lib, params)
  {
    GroupOf(m, log, id);
    w := MakeWindow(id, TotalsIn(m, id), Of(log, id), startNs, endNs, lib, params);
  }

  ghost predicate IsItsWindow(w: ContestantWindow, id: string, log: seq<Sample<string>>,
      startNs: int, endNs: int, lib: Library, params: ScoringParams)
  {
    w.contestantId == id && Of(log, id) != [] && IsWindowOf(w, Of(log, id), startNs, endNs, lib, params)
  }

  lemma EachIsItsWindow(out: seq<ContestantWindow>, order: seq<string>, log: seq<Sample<string>>,
      startNs: int, endNs: int, lib: Library, params: ScoringParams)
    requires AreTheirWindows(out, order, log, startNs, endNs, lib, params)
    ensures |out| == |order|
    ensures forall i :: 0 <= i < |out| ==> IsItsWindow(out[i], order[i], log, startNs, endNs, lib, params)
  {
    assert |out| == |order|;
    hide IsItsWindow;
    forall i | 0 <= i < |out|
      ensures IsItsWindow(out[i], order[i], log, startNs, endNs, lib, params)
    {
      TheirWindowsAt(out, order, log, startNs, endNs, lib, params, i);
    }
  }

  /** The windows' contestants are those of ids, each once. */
  lemma WindowsCoverIds(out: seq<ContestantWindow>, order: seq<string>, ids: set<string>)
    requires NoDuplicates(order) && (forall k :: k in order <==> k in ids) && |out| == |order|
    requires forall i :: 0 <= i < |out| ==> out[i].contestantId == order[i]
    ensures forall i, j :: 0 <= i < j < |out| ==> out[i].contestantId != out[j].contestantId
    ensures forall id :: id in ids ==> exists i :: 0 <= i < |out| && out[i].contestantId == id
    ensures forall i :: 0 <= i < |out| ==> out[i].contestantId in ids
  {
    forall id | id in ids
      ensures exists i :: 0 <= i < |out| && out[i].contestantId == id
    {
      assert id in order;
      var i :| 0 <= i < |order| && order[i] == id;
      assert out[i].contestantId == id;
    }
    forall i | 0 <= i < |out|
      ensures out[i].contestantId in ids
    {
      assert order[i] in order;
    }
  }

  lemma WindowsAreGroups(out: seq<ContestantWindow>, order: seq<string>, log: seq<Sample<string>>, ids: set<string>,
      startNs: int, endNs: int, lib: Library, params: ScoringParams)
    requires NoDuplicates(order) && forall k :: k in order <==> k in ids
    requires AreTheirWindows(out, order, log, startNs, endNs, lib, params)
    ensures GroupsOf(out, log, ids, startNs, endNs, lib, params)
  {
    EachIsItsWindow(out, order, log, startNs, endNs, lib, params);
    WindowsCoverIds(out, order, ids);
    hide IsWindowOf, Of, AreTheirWindows, NoDuplicates;
  }

  lemma GroupOf(m: Maps<string>, log: seq<Sample<string>>, id: string)
    requires Consistent(m, log) && id in m.cnt
    ensures Of(log, id) != [] && Tracks(TotalsIn(m, id), Of(log, id)) && Of(log, id)[0].contestantId == id
  {
    OfMember(log, id);
    assert Of(log, id)[0] in Of(log, id);
  }

  class Aggregator {
    const lib: Library
    const params: ScoringParams
    var startNs: int
    var endNs: int
    var hists: map<string, Histogram>
    var sumUs: map<string, nat>
    var cnt: map<string, nat>
    var ok: map<string, nat>
    var minUs: map<string, nat>
    var maxUs: map<string, nat>
    ghost var log: seq<Sample<string>>    // what was added since the last flush

    ghost function State(): Maps<string>
      reads this
    {
      Maps(hists, sumUs, cnt, ok, minUs, maxUs)
    }

    ghost predicate Valid()
      reads this
    {
      Consistent(State(), log)
    }

    constructor (lib: Library, params: ScoringParams, nowNs: int, windowNs: int)
      ensures Valid() && log == [] && this.lib == lib && this.params == params
      ensures startNs == nowNs && endNs == nowNs + windowNs
    {
      this.lib, this.params := lib, params;
      startNs, endNs := nowNs, nowNs + windowNs;
      hists, sumUs, cnt, ok, minUs, maxUs := map[], map[], map[], map[], map[], map[];
      log := [];
    }

    /** Gives a contestant seen for the first time in this window an empty histogram and zero extremes. */
    method Ensure(id: string)
      modifies this
      ensures startNs == old(startNs) && endNs == old(endNs) && log == old(log)
      ensures State() == Ensured(old(State()), id)
    {
      if id !in hists {
        hists := hists[id := multiset{}];
        minUs := minUs[id := 0];
        maxUs := maxUs[id := 0];
      }
    }

    /** The locked part of Add. */
    method Record(s: Sample<string>)
      modifies this
      ensures startNs == old(startNs) && endNs == old(endNs) && log == old(log)
      ensures State() == Recorded(old(State()), s)
    {
      hide Get, HistIn, Bump, Lower, Raise, Ensured;
      var id, us := s.contestantId, s.latencyUs;
      Ensure(id);
      hists := hists[id := HistIn(hists, id) + multiset{us}];
      cnt := Bump(cnt, id, 1);
      sumUs := Bump(sumUs, id, us);
      if s.correct {
        ok := Bump(ok, id, 1);
      }
      minUs := Lower(minUs, id, us);
      maxUs := Raise(maxUs, id, us);
    }

    method AddSample(s: Sample<string>)
      requires Valid() && s.latencyUs >= 1
      modifies this
      ensures Valid() && log == old(log) + [s]
      ensures startNs == old(startNs) && endNs == old(endNs)
    {
      ghost var before, added := State(), log;
      log := log + [s];
      Record(s);
      AddKeeps(before, State(), added, s);
    }

    method Add(contestantId: string, latencyUs: nat, correct: bool)
      requires Valid()
      modifies this
      ensures Valid()
      ensures log == old(log) + [Normalize(contestantId, latencyUs, correct)]
      ensures var s := log[|old(log)|];
        && s.correct == correct && s.contestantId == (if contestantId == "" then "unknown" else contestantId)
        && (latencyUs >= 1 ==> s.latencyUs == latencyUs) && (latencyUs == 0 ==> s.latencyUs == 1)
      ensures startNs == old(startNs) && endNs == old(endNs)
    {
      var id, us := contestantId, latencyUs;
      if id == "" {
        id := "unknown";
      }
      if us == 0 {
        us := 1;
      }
      AddSample(Sample(id, us, correct));
    }

    /** One window per contestant seen, in the arbitrary order of a map range. */
    method Windows() returns (out: seq<ContestantWindow>)
      requires Valid()
      ensures IsGroupBy(out, log, startNs, endNs, lib, params)
    {
      KnownContestants(State(), log);
      out := WindowsOf(Maps(hists, sumUs, cnt, ok, minUs, maxUs), log, startNs, endNs, lib, params);
    }

    method FlushAndReset(nowNs: int, nextWindowNs: int) returns (out: seq<ContestantWindow>)
      requires Valid()
      modifies this
      ensures Valid() && log == []
      ensures IsGroupBy(out, old(log), old(startNs), old(endNs), lib, params)
      ensures startNs == nowNs && endNs == nowNs + nextWindowNs
    {
      hide IsGroupBy;
      out := Windows();
      startNs := nowNs;
      endNs := nowNs + nextWindowNs;
      hists, sumUs, cnt, ok, minUs, maxUs := map[], map[], map[], map[], map[], map[];
      log := [];
    }
  }

  // ---------------------------------------------------------------------------------------------------------------
  // Nothing is counted twice or left out
  // ---------------------------------------------------------------------------------------------------------------

  ghost function SizesOf<K>(order: seq<K>, log: seq<Sample<K>>): nat {
    if order == [] then 0 else SizesOf(order[..|order| - 1], log) + |Of(log, order[|order| - 1])|
  }

  lemma {:induction false} SizesSnoc<K>(order: seq<K>, log: seq<Sample<K>>, s: Sample<K>)
    requires NoDuplicates(order)
    ensures SizesOf(order, log + [s]) == SizesOf(order, log) + (if s.contestantId in order then 1 else 0)
  {
    if order != [] {
      var rest, id := order[..|order| - 1], order[|order| - 1];
      LastIsNew(order);
      SizesSnoc(rest, log, s);
      hide Of, NoDuplicates;
      OfSnoc(log, s, id);
    }
  }

  lemma LastIsNew<K>(order: seq<K>)
    requires NoDuplicates(order) && order != []
    ensures var rest, id := order[..|order| - 1], order[|order| - 1];
      NoDuplicates(rest) && id !in rest && forall x :: x in order <==> x in rest || x == id
  {
    var rest, id := order[..|order| - 1], order[|order| - 1];
    assert order == rest + [id];
    assert forall i :: 0 <= i < |rest| ==> rest[i] == order[i] != id;
  }

  lemma {:induction false} SizesEmpty<K>(order: seq<K>)
    ensures SizesOf(order, []) == 0
  {
    if order != [] {
      SizesEmpty(order[..|order| - 1]);
    }
  }

  lemma {:induction false} SizesTotal<K>(order: seq<K>, log: seq<Sample<K>>)
    requires NoDuplicates(order) && forall s :: s in log ==> s.contestantId in order
    ensures SizesOf(order, log) == |log|
  {
    if log == [] {
      SizesEmpty(order);
    } else {
      var rest, s := log[..|log| - 1], log[|log| - 1];
      assert log == rest + [s];
      SizesTotal(order, rest);
      SizesSnoc(order, rest, s);
    }
  }

  function TotalCount(windows: seq<ContestantWindow>): nat {
    if windows == [] then 0 else TotalCount(windows[..|windows| - 1]) + windows[|windows| - 1].count
  }

  lemma {:induction false} TotalCountIsSizes(windows: seq<ContestantWindow>, order: seq<string>,
      log: seq<Sample<string>>)
    requires |order| == |windows|
    requires forall i :: 0 <= i < |windows| ==> windows[i].count == |Of(log, order[i])|
    ensures TotalCount(windows) == SizesOf(order, log)
  {
    if windows != [] {
      TotalCountIsSizes(windows[..|windows| - 1], order[..|order| - 1], log);
    }
  }

  /** The counts of a flush add up to the number of samples it covers. */
  lemma CountsSumToBatch(windows: seq<ContestantWindow>, log: seq<Sample<string>>, startNs: int, endNs: int,
      lib: Library, params: ScoringParams)
    requires IsGroupBy(windows, log, startNs, endNs, lib, params)
    ensures TotalCount(windows) == |log|
    ensures windows == [] <==> log == []
  {
    var order := seq(|windows|, i requires 0 <= i < |windows| => windows[i].contestantId);
    WindowsCover(windows, order, log, startNs, endNs, lib, params);
    TotalCountIsSizes(windows, order, log);
    SizesTotal(order, log);
    if windows != [] {
      OfMember(log, order[0]);
      assert Of(log, order[0])[0] in log;
    }
  }

  lemma WindowsCover(windows: seq<ContestantWindow>, order: seq<string>, log: seq<Sample<string>>,
      startNs: int, endNs: int, lib: Library, params: ScoringParams)
    requires IsGroupBy(windows, log, startNs, endNs, lib, params)
    requires |order| == |windows| && forall i :: 0 <= i < |windows| ==> order[i] == windows[i].contestantId
    ensures NoDuplicates(order) && forall s :: s in log ==> s.contestantId in order
    ensures forall i :: 0 <= i < |windows| ==> windows[i].count == |Of(log, order[i])| > 0
  {
    forall s | s in log
      ensures s.contestantId in order
    {
      assert s.contestantId in Contestants(log);
      var i :| 0 <= i < |windows| && windows[i].contestantId == s.contestantId;
      assert order[i] == s.contestantId;
    }
  }
}
