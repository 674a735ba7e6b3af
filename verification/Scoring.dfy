/** The live score of a contestant's window. The exponential is any function with the three properties of ExpLike. */
module Scoring {
  import Telemetry

  datatype ScoringParams = ScoringParams(lambda: real, lTarget: real, tTarget: real)

  const WEIGHT_LATENCY := 0.40
  const WEIGHT_THROUGHPUT := 0.30
  const WEIGHT_CORRECTNESS := 0.30

  function Max(a: real, b: real): real {
    if a < b then b else a
  }

  function Min(a: real, b: real): real {
    if a < b then a else b
  }

  function LComposite(p50: real, p90: real, p99: real): real {
    0.2 * p50 + 0.3 * p90 + 0.5 * p99
  }

  function Decay(p50: real, p90: real, p99: real, p: ScoringParams): real {
    DecayAt(LComposite(p50, p90, p99), p)
  }

  function DecayAt(composite: real, p: ScoringParams): real {
    -p.lambda * Max(0.0, composite - p.lTarget)
  }

  function LatencyScore(exp: real -> real, p50: real, p90: real, p99: real, p: ScoringParams): real {
    100.0 * exp(Decay(p50, p90, p99, p))
  }

  /** min(1, x / y) in floating point, where a positive x over 0 is +Inf. */
  function CappedQuotient(x: real, y: real): real {
    if y == 0.0 then 1.0 else Min(1.0, x / y)
  }

  function ThroughputScore(sustainedTPS: real, p: ScoringParams): real {
    100.0 * CappedQuotient(sustainedTPS, p.tTarget)
  }

  function CorrectnessScore(ratio: real): real {
    100.0 * (ratio * ratio * ratio * ratio)
  }

  function ComputeScore(exp: real -> real, p50: real, p90: real, p99: real, ratio: real, sustainedTPS: real,
      p: ScoringParams): real
  {
    WEIGHT_LATENCY * LatencyScore(exp, p50, p90, p99, p)
    + WEIGHT_THROUGHPUT * ThroughputScore(sustainedTPS, p)
    + WEIGHT_CORRECTNESS * CorrectnessScore(ratio)
  }

  ghost predicate ExpLike(exp: real -> real) {
    && exp(0.0) == 1.0
    && (forall x :: exp(x) > 0.0)
    && (forall x, y :: x <= y ==> exp(x) <= exp(y))
  }

  predicate ValidParams(p: ScoringParams) {
    p.lambda >= 0.0 && p.tTarget >= 0.0
  }

  lemma ProductMonotone(a: real, b: real, c: real, d: real)
    requires 0.0 <= a <= b && 0.0 <= c <= d
    ensures 0.0 <= a * c <= b * d
  {
    assert a * c <= a * d;
    assert a * d <= b * d;
  }

  lemma FourthPowerMonotone(r: real, s: real)
    requires 0.0 <= r <= s
    ensures 0.0 <= r * r * r * r <= s * s * s * s
  {
    ProductMonotone(r, s, r, s);
    ProductMonotone(r * r, s * s, r, s);
    ProductMonotone(r * r * r, s * s * s, r, s);
  }

  lemma NegatedProduct(a: real, b: real)
    ensures -a * b == -(a * b)
  {
  }

  lemma DecayMonotone(p50: real, p90: real, p99: real, q50: real, q90: real, q99: real, p: ScoringParams)
    requires ValidParams(p) && p50 <= q50 && p90 <= q90 && p99 <= q99
    ensures Decay(q50, q90, q99, p) <= Decay(p50, p90, p99, p) <= 0.0
  {
    var x := Max(0.0, LComposite(p50, p90, p99) - p.lTarget);
    var y := Max(0.0, LComposite(q50, q90, q99) - p.lTarget);
    assert 0.0 <= x <= y;
    ProductMonotone(p.lambda, p.lambda, x, y);
    NegatedProduct(p.lambda, x);
    NegatedProduct(p.lambda, y);
    assert Decay(p50, p90, p99, p) == -(p.lambda * x) && Decay(q50, q90, q99, p) == -(p.lambda * y);
  }

  lemma LatencyScoreMonotone(exp: real -> real, p50: real, p90: real, p99: real, q50: real, q90: real, q99: real,
      p: ScoringParams)
    requires ExpLike(exp) && ValidParams(p)
    requires p50 <= q50 && p90 <= q90 && p99 <= q99
    ensures 0.0 < LatencyScore(exp, q50, q90, q99, p) <= LatencyScore(exp, p50, p90, p99, p) <= 100.0
  {
    DecayMonotone(p50, p90, p99, q50, q90, q99, p);
    var dx, dy := Decay(p50, p90, p99, p), Decay(q50, q90, q99, p);
    assert exp(dy) <= exp(dx) <= exp(0.0);
  }

  lemma ThroughputScoreMonotone(tps: real, tps': real, p: ScoringParams)
    requires ValidParams(p) && 0.0 <= tps <= tps'
    ensures 0.0 <= ThroughputScore(tps, p) <= ThroughputScore(tps', p) <= 100.0
  {
    if p.tTarget > 0.0 {
      Telemetry.QuotientMonotone(tps, tps', p.tTarget);
      Telemetry.QuotientMonotone(0.0, tps, p.tTarget);
    }
  }

  /** The live score lies between 0 and 100. */
  lemma ScoreBounds(exp: real -> real, p50: real, p90: real, p99: real, ratio: real, tps: real, p: ScoringParams)
    requires ExpLike(exp) && ValidParams(p) && 0.0 <= ratio <= 1.0 && tps >= 0.0
    ensures 0.0 <= ComputeScore(exp, p50, p90, p99, ratio, tps, p) <= 100.0
  {
    LatencyScoreMonotone(exp, p50, p90, p99, p50, p90, p99, p);
    ThroughputScoreMonotone(tps, tps, p);
    FourthPowerMonotone(ratio, 1.0);
  }

  /** Lower percentiles, a better ratio and more throughput never lower the live score. */
  lemma ScoreMonotone(exp: real -> real, p50: real, p90: real, p99: real, q50: real, q90: real, q99: real,
      ratio: real, ratio': real, tps: real, tps': real, p: ScoringParams)
    requires ExpLike(exp) && ValidParams(p)
    requires p50 <= q50 && p90 <= q90 && p99 <= q99 && 0.0 <= ratio' <= ratio && 0.0 <= tps' <= tps
    ensures ComputeScore(exp, q50, q90, q99, ratio', tps', p) <= ComputeScore(exp, p50, p90, p99, ratio, tps, p)
  {
    LatencyScoreMonotone(exp, p50, p90, p99, q50, q90, q99, p);
    ThroughputScoreMonotone(tps', tps, p);
    FourthPowerMonotone(ratio', ratio);
  }

  // ---------------------------------------------------------------------------------------------------------------
  // What the score rewards, and by how much
  // ---------------------------------------------------------------------------------------------------------------

  /** Latency, throughput and correctness count four, three and three tenths. */
  lemma ScoreWeights(exp: real -> real, p50: real, p90: real, p99: real, ratio: real, tps: real, p: ScoringParams)
    ensures 10.0 * ComputeScore(exp, p50, p90, p99, ratio, tps, p)
         == 4.0 * LatencyScore(exp, p50, p90, p99, p) + 3.0 * ThroughputScore(tps, p) + 3.0 * CorrectnessScore(ratio)
  {
  }

  /** Halving the ratio of correct answers costs fifteen sixteenths of their score, and all correct is worth 100. */
  lemma CorrectnessShape(ratio: real)
    ensures 16.0 * CorrectnessScore(ratio / 2.0) == CorrectnessScore(ratio)
    ensures CorrectnessScore(1.0) == 100.0 && CorrectnessScore(0.0) == 0.0
  {
    var h := ratio / 2.0;
    assert ratio == 2.0 * h;
    assert ratio * ratio == 4.0 * (h * h);
    assert ratio * ratio * ratio == 8.0 * (h * h * h);
    assert ratio * ratio * ratio * ratio == 16.0 * (h * h * h * h);
  }

  /** Throughput counts in proportion up to the target and not beyond. */
  lemma ThroughputShape(tps: real, p: ScoringParams)
    requires p.tTarget > 0.0 && tps >= 0.0
    ensures tps >= p.tTarget ==> ThroughputScore(tps, p) == 100.0
    ensures tps <= p.tTarget ==> ThroughputScore(tps, p) * p.tTarget == 100.0 * tps
  {
    var q := tps / p.tTarget;
    assert q * p.tTarget == tps;
    if tps >= p.tTarget {
      Telemetry.QuotientMonotone(p.tTarget, tps, p.tTarget);
    } else {
      Telemetry.QuotientMonotone(tps, p.tTarget, p.tTarget);
    }
    assert tps <= p.tTarget ==> ThroughputScore(tps, p) == 100.0 * q;
  }

  /**
   * Five microseconds at p50 weigh as much as two at p99, three at p50 as much as two at p90; up to the target latency
   * costs nothing, and a latency beyond it, at all three percentiles, costs the exponential of lambda times the excess.
   */
  lemma LatencyShape(exp: real -> real, p50: real, p90: real, p99: real, x: real, p: ScoringParams)
    ensures LatencyScore(exp, p50 + 5.0, p90, p99, p) == LatencyScore(exp, p50, p90, p99 + 2.0, p)
    ensures LatencyScore(exp, p50 + 3.0, p90, p99, p) == LatencyScore(exp, p50, p90 + 2.0, p99, p)
    ensures x <= p.lTarget ==> LatencyScore(exp, x, x, x, p) == 100.0 * exp(0.0)
    ensures x > p.lTarget ==> LatencyScore(exp, x, x, x, p) == 100.0 * exp(0.0 - p.lambda * (x - p.lTarget))
  {
    assert LComposite(p50 + 5.0, p90, p99) == LComposite(p50, p90, p99 + 2.0);
    assert LComposite(p50 + 3.0, p90, p99) == LComposite(p50, p90 + 2.0, p99);
    assert LComposite(x, x, x) == x;
    NegatedProduct(p.lambda, Max(0.0, x - p.lTarget));
    assert x > p.lTarget ==> DecayAt(x, p) == 0.0 - p.lambda * (x - p.lTarget);
    assert x <= p.lTarget ==> DecayAt(x, p) == 0.0;
    hide DecayAt, LComposite;
  }
}
