/** The metric record, the ring buffer as one thread sees it, and the running latency statistics. */
module Telemetry {
  import opened Sequences

  datatype Metric = Metric(
    testRunId: string,
    contestantId: string,
    clientId: string,
    orderId: string,
    sentTimeNs: nat,
    recvTimeNs: nat,
    engineTimeNs: nat,
    isCorrect: bool,
    errorCode: string)

  const ZERO_METRIC := Metric("", "", "", "", 0, 0, 0, false, "")

  /** The answer was received after the order was sent, as far as the two clock readings go. */
  predicate Timed(m: Metric) {
    m.recvTimeNs >= m.sentTimeNs
  }

  /** From sending to receiving took us whole microseconds, where anything shorter than one counts as one. */
  predicate TakesUs(m: Metric, us: nat) {
    && Timed(m) && us >= 1
    && m.recvTimeNs - m.sentTimeNs < 1000 * (us + 1) && (us > 1 ==> 1000 * us <= m.recvTimeNs - m.sentTimeNs)
  }

  /** The metrics held between the two cursors, oldest first: position t lives in slot t % |buf|. */
  function Held(buf: seq<Metric>, read: nat, write: nat): (held: seq<Metric>)
    requires |buf| > 0 && read <= write
    ensures |held| == write - read
  {
    seq(write - read, i requires 0 <= i => buf[(read + i) % |buf|])
  }

  /** Storing position write into its slot appends to what is held, as long as there is room. */
  lemma HeldPush(buf: seq<Metric>, read: nat, write: nat, m: Metric)
    requires read <= write < read + |buf|
    ensures Held(buf[write % |buf| := m], read, write + 1) == Held(buf, read, write) + [m]
  {
    var after := buf[write % |buf| := m];
    forall i | 0 <= i <= write - read
      ensures Held(after, read, write + 1)[i] == (Held(buf, read, write) + [m])[i]
    {
      if i < write - read {
        SlotsDistinct(|buf|, read + i, write);
      }
    }
  }

  lemma HeldPop(buf: seq<Metric>, read: nat, write: nat, n: nat)
    requires |buf| > 0 && read + n <= write
    ensures Held(buf, read + n, write) == Held(buf, read, write)[n..]
  {
    forall i | 0 <= i < write - (read + n)
      ensures Held(buf, read + n, write)[i] == Held(buf, read, write)[n..][i]
    {
      assert (read + n) + i == read + (n + i);
    }
  }

  /**
   * The ring buffer of internal/telemetry/ringbuffer.go used by one goroutine at a time. Without interference the
   * compare-and-swap of Push succeeds at its first attempt; module RingProtocol has the interleaved steps.
   */
  class RingBuffer {
    const size: nat
    const buf: array<Metric>
    var write: nat
    var read: nat

    ghost predicate Valid()
      reads this, buf
    {
      size > 0 && buf.Length == size && read <= write <= read + size
    }

    /** The metrics pushed and not yet popped, oldest first. */
    ghost function Contents(): (s: seq<Metric>)
      requires Valid()
      reads this, buf
    {
      Held(buf[..], read, write)
    }

    constructor (size: nat)
      ensures Valid() && fresh(buf) && Contents() == []
      ensures this.size == if size == 0 then 1 else size
    {
      var n := if size == 0 then 1 else size;
      this.size := n;
      buf := new Metric[n](_ => ZERO_METRIC);
      write := 0;
      read := 0;
    }

    /** Stores m unless the buffer is full; a full buffer stays as it is. */
    method Push(m: Metric) returns (ok: bool)
      requires Valid()
      modifies this`write, buf
      ensures Valid()
      ensures ok <==> |old(Contents())| < size
      ensures Contents() == if ok then old(Contents()) + [m] else old(Contents())
    {
      var w := write;
      var rd := read;
      if w - rd >= size {
        return false;
      }
      write := w + 1;
      HeldPush(buf[..], rd, w, m);
      buf[w % size] := m;
      return true;
    }

    /** Moves the oldest metrics into dst, as many as fit, and reports how many. */
    method PopInto(dst: array<Metric>) returns (n: nat)
      requires Valid() && dst != buf
      modifies this`read, dst
      ensures Valid()
      ensures n == Min(dst.Length, |old(Contents())|)
      ensures dst[..n] == old(Contents())[..n] && dst[n..] == old(dst[n..])
      ensures Contents() == old(Contents())[n..]
    {
      var rd := read;
      var w := write;
      if w <= rd {
        return 0;
      }
      var avail := w - rd;
      n := dst.Length;
      if avail < n {
        n := avail;
      }
      for i := 0 to n
        invariant forall j :: 0 <= j < i ==> dst[j] == buf[(rd + j) % size]
        invariant forall j :: i <= j < dst.Length ==> dst[j] == old(dst[j])
      {
        dst[i] := buf[(rd + i) % size];
      }
      read := rd + n;
      HeldPop(buf[..], rd, w, n);
    }
  }

  function Sum(s: seq<nat>): nat {
    if s == [] then 0 else Sum(s[..|s| - 1]) + s[|s| - 1]
  }

  ghost predicate IsMinimum(s: seq<nat>, m: nat) {
    m in s && forall x :: x in s ==> m <= x
  }

  ghost predicate IsMaximum(s: seq<nat>, m: nat) {
    m in s && forall x :: x in s ==> x <= m
  }

  lemma {:induction false} SumBounds(s: seq<nat>, lo: nat, hi: nat)
    requires forall x :: x in s ==> lo <= x <= hi
    ensures lo * |s| <= Sum(s) <= hi * |s|
  {
    if s != [] {
      var t := s[..|s| - 1];
      assert forall x :: x in t ==> x in s;
      SumBounds(t, lo, hi);
      assert s[|s| - 1] in s;
      OneMore(lo, |t|);
      OneMore(hi, |t|);
    }
  }

  lemma OneMore(x: nat, n: nat)
    ensures x * (n + 1) == x * n + x
  {
  }

  /** math.Round of a quotient of non-negative numbers: halves round up. */
  function RoundedMean(sum: nat, count: nat): (r: nat)
    requires count > 0
  {
    (sum as real / count as real + 0.5).Floor
  }

  /** It is a whole number nearest to the exact quotient. */
  lemma RoundedMeanIsNearest(sum: nat, count: nat)
    requires count > 0
    ensures var r := RoundedMean(sum, count); 2 * (r * count) <= 2 * sum + count < 2 * ((r + 1) * count)
  {
    var q, c, r := sum as real / count as real, count as real, RoundedMean(sum, count);
    assert q * c == sum as real;
    ScaledRounding(r as real, q, c, sum as real);
    RealProduct(r, count);
    RealProduct(r + 1, count);
    hide RoundedMean;
    assert (r * count) as real == r as real * c && ((r + 1) * count) as real == (r as real + 1.0) * c;
  }

  lemma ScaledRounding(r: real, q: real, c: real, s: real)
    requires r <= q + 0.5 < r + 1.0 && c > 0.0 && q * c == s
    ensures 2.0 * (r * c) <= 2.0 * s + c < 2.0 * ((r + 1.0) * c)
  {
    var low, high := q + 0.5 - r, r + 1.0 - (q + 0.5);
    assert low * c >= 0.0 && high * c > 0.0;
    assert low * c == s + 0.5 * c - r * c;
    assert high * c == (r + 1.0) * c - s - 0.5 * c;
  }

  /** Rounding keeps the mean between the extremes of the values averaged. */
  lemma RoundedMeanBounds(s: seq<nat>, lo: nat, hi: nat)
    requires s != [] && IsMinimum(s, lo) && IsMaximum(s, hi)
    ensures lo <= RoundedMean(Sum(s), |s|) <= hi
  {
    SumBounds(s, lo, hi);
    QuotientBounds(Sum(s), |s|, lo, hi);
  }

  lemma QuotientBounds(sum: nat, count: nat, lo: nat, hi: nat)
    requires count > 0 && lo * count <= sum <= hi * count
    ensures lo as real <= sum as real / count as real <= hi as real
  {
    RealProduct(lo, count);
    RealProduct(hi, count);
    QuotientBetween(lo as real, sum as real, hi as real, count as real);
  }

  lemma QuotientBetween(lo: real, x: real, hi: real, c: real)
    requires c > 0.0 && lo * c <= x <= hi * c
    ensures lo <= x / c <= hi
  {
    QuotientMonotone(lo * c, x, c);
    QuotientMonotone(x, hi * c, c);
    QuotientCancels(lo, c);
    QuotientCancels(hi, c);
  }

  lemma RealProduct(a: nat, b: nat)
    ensures (a * b) as real == a as real * b as real
  {
  }

  lemma Requotient(x: real, c: real)
    requires c > 0.0
    ensures x / c * c == x
  {
  }

  lemma QuotientCancels(x: real, c: real)
    requires c > 0.0
    ensures x * c / c == x
  {
  }

  lemma QuotientMonotone(x: real, y: real, c: real)
    requires x <= y && c > 0.0
    ensures x / c <= y / c
  {
    assert y / c - x / c == (y - x) / c;
  }

  /** Running statistics over the latencies added since the last reset. */
  class Stats {
    var count: nat
    var minLatencyNs: nat
    var maxLatencyNs: nat
    var sumLatencyNs: nat
    ghost var added: seq<nat>

    ghost predicate Valid()
      reads this
    {
      && count == |added| && sumLatencyNs == Sum(added)
      && (added == [] ==> minLatencyNs == 0 && maxLatencyNs == 0)
      && (added != [] ==> IsMinimum(added, minLatencyNs) && IsMaximum(added, maxLatencyNs))
    }

    constructor ()
      ensures Valid() && added == []
    {
      count, minLatencyNs, maxLatencyNs, sumLatencyNs, added := 0, 0, 0, 0, [];
    }

    method Reset()
      modifies this
      ensures Valid() && added == []
    {
      count := 0;
      minLatencyNs := 0;
      maxLatencyNs := 0;
      sumLatencyNs := 0;
      added := [];
    }

    method AddLatency(latNs: nat)
      requires Valid()
      modifies this
      ensures Valid() && added == old(added) + [latNs]
    {
      added := added + [latNs];
      assert added[..|added| - 1] == old(added);
      if count == 0 {
        minLatencyNs := latNs;
        maxLatencyNs := latNs;
        sumLatencyNs := latNs;
        count := 1;
        return;
      }
      if latNs < minLatencyNs {
        minLatencyNs := latNs;
      }
      if latNs > maxLatencyNs {
        maxLatencyNs := latNs;
      }
      sumLatencyNs := sumLatencyNs + latNs;
      count := count + 1;
    }

    /** The rounded mean of what was added, between the reported extremes; 0 after a reset. */
    method AvgLatencyNs() returns (avg: nat)
      requires Valid()
      ensures added == [] ==> avg == 0
      ensures added != [] ==>
                && minLatencyNs <= avg <= maxLatencyNs
                && 2 * (avg * |added|) <= 2 * Sum(added) + |added| < 2 * ((avg + 1) * |added|)
    {
      if count == 0 {
        return 0;
      }
      RoundedMeanBounds(added, minLatencyNs, maxLatencyNs);
      RoundedMeanIsNearest(Sum(added), |added|);
      return (sumLatencyNs as real / count as real + 0.5).Floor;
    }
  }
}
