/**
 * A judge run end to end: a fleet of bots, each receiver pushing its metrics into the shared ring buffer, then, once
 * every bot has finished, one consumer draining it. Any interleaving of the bots' senders, receivers and pushes.
 */
module JudgeRun {
  import opened Sequences
  import opened Telemetry
  import Ring = RingProtocol
  import opened BotFleet
  import opened BotRuns
  import opened JudgeStats

  const CAPACITY := 500000

  datatype System = System(fleet: seq<Bot>, ring: Ring.Ring)

  /** One bot per element of unary, which says whose stream could not be opened. */
  function Start(unary: seq<bool>, capacity: nat): System {
    System(seq(|unary|, i requires 0 <= i < |unary| => NewBot(i, unary[i])), Ring.Init(capacity, |unary|))
  }

  datatype SystemStep =
    | OfBot(i: nat, botStep: BotStep)    // a step of bot i; Publish also calls Push
    | OfPush(ringStep: Ring.Step)        // a step inside some bot's Push
    | OfDrain(ringStep: Ring.Step)       // a step of the drain

  /** Steps taken by the goroutine that pushes; it takes none while its Push has not returned. */
  predicate ByReceiver(b: Bot, step: BotStep) {
    step.Receive? || step.Publish? || step.StreamEnds? || step.UnaryOrder? || (step.ContextDone? && b.unary)
  }

  predicate IsConsumerStep(step: Ring.Step) {
    step.PopLoadRead? || step.PopLoadWrite? || step.PopCopy? || step.PopStoreRead?
  }

  /** botfleet.Run returns only after every bot has, and a stream bot only after its receiver has. */
  ghost predicate AllDone(fleet: seq<Bot>) {
    forall i :: 0 <= i < |fleet| ==> Done(fleet[i])
  }

  ghost predicate Enabled(sys: System, step: SystemStep) {
    match step
    case OfBot(i, s) =>
      && i < |sys.fleet| == |sys.ring.producers| && BotEnabled(sys.fleet[i], s)
      && (ByReceiver(sys.fleet[i], s) ==> sys.ring.producers[i].Idle?)
    case OfPush(s) => !IsConsumerStep(s) && !s.Call? && Ring.Enabled(sys.ring, s)
    case OfDrain(s) => IsConsumerStep(s) && AllDone(sys.fleet) && Ring.Enabled(sys.ring, s)
  }

  /** A push holds up its receiver and nobody else: while it lasts the bot receives nothing, but its sender goes on. */
  lemma PushHoldsUpReceiver(sys: System, i: nat, step: BotStep)
    requires i < |sys.fleet| == |sys.ring.producers| && BotEnabled(sys.fleet[i], step)
    ensures step.Receive? || step.Publish? || step.StreamEnds? || step.UnaryOrder? ==>
              (Enabled(sys, OfBot(i, step)) <==> sys.ring.producers[i].Idle?)
    ensures step.Tick? || step.SendSucceeds? || step.SendFails? || (step.ContextDone? && !sys.fleet[i].unary) ==>
              Enabled(sys, OfBot(i, step))
  {
    hide BotEnabled;
  }

  ghost function Next(cfg: Config, sys: System, step: SystemStep): System
    requires Enabled(sys, step)
  {
    match step
    case OfBot(i, s) =>
      var moved := sys.(fleet := sys.fleet[i := BotNext(cfg, sys.fleet[i], s)]);
      if s.Publish? then moved.(ring := Ring.Next(sys.ring, Ring.Call(i, sys.fleet[i].receiver.record.metric)))
      else moved
    case OfPush(s) => sys.(ring := Ring.Next(sys.ring, s))
    case OfDrain(s) => sys.(ring := Ring.Next(sys.ring, s))
  }

  ghost predicate Legal(cfg: Config, sys: System, steps: seq<SystemStep>)
    decreases |steps|
  {
    steps == [] || (Enabled(sys, steps[0]) && Legal(cfg, Next(cfg, sys, steps[0]), steps[1..]))
  }

  ghost function After(cfg: Config, sys: System, steps: seq<SystemStep>): System
    requires Legal(cfg, sys, steps)
    decreases |steps|
  {
    if steps == [] then sys else After(cfg, Next(cfg, sys, steps[0]), steps[1..])
  }

  // ---------------------------------------------------------------------------------------------------------------
  // What every step of the system keeps
  // ---------------------------------------------------------------------------------------------------------------

  function MetricOf(r: Record): seq<Metric> {
    [r.metric]
  }

  function MetricsOf(b: Bot): seq<Metric> {
    FlatMap(MetricOf, b.recorded)
  }

  /** The metrics the whole fleet has published so far. */
  function Published(fleet: seq<Bot>): seq<Metric> {
    FlatMap(MetricsOf, fleet)
  }

  ghost predicate FleetOk(fleet: seq<Bot>) {
    forall i :: 0 <= i < |fleet| ==> fleet[i].index == i && BotOk(fleet[i])
  }

  ghost predicate RingOk(ring: Ring.Ring) {
    Ring.Safe(ring) && Ring.Delivering(ring) && Ring.Conserved(ring) && Ring.Filling(ring)
  }

  /** A finished bot has no push under way, and nothing is popped before all have finished. */
  ghost predicate Joined(sys: System) {
    && |sys.fleet| == |sys.ring.producers|
    && (forall i :: 0 <= i < |sys.fleet| && sys.fleet[i].receiver.Finished? ==> sys.ring.producers[i].Idle?)
    && (!AllDone(sys.fleet) ==> sys.ring.read == 0 && sys.ring.consumer.Resting?)
  }

  /** Exactly the published metrics have been offered to the ring. */
  ghost predicate Offered(sys: System) {
    Permutation(sys.ring.called, Published(sys.fleet))
  }

  ghost predicate SystemOk(sys: System) {
    FleetOk(sys.fleet) && RingOk(sys.ring) && Joined(sys) && Offered(sys)
  }

  lemma StartOk(unary: seq<bool>, capacity: nat)
    requires capacity < Ring.TWO_TO_THE_64
    ensures SystemOk(Start(unary, capacity))
  {
    var sys := Start(unary, capacity);
    StartRingOk(capacity, |unary|);
    FlatMapEmpty(MetricsOf, sys.fleet);
    forall i | 0 <= i < |sys.fleet|
      ensures sys.fleet[i].index == i && BotOk(sys.fleet[i])
    {
      NewBotOk(i, unary[i]);
    }
  }

  lemma StartRingOk(capacity: nat, producerCount: nat)
    requires capacity < Ring.TWO_TO_THE_64
    ensures RingOk(Ring.Init(capacity, producerCount))
  {
    Ring.InitDelivers(capacity, producerCount);
    Ring.InitConserved(capacity, producerCount);
    hide Ring.Safe, Ring.Delivering, Ring.Conserved;
  }

  lemma AllIdleWhenDone(sys: System)
    requires Joined(sys) && AllDone(sys.fleet)
    ensures Ring.AllIdle(sys.ring)
  {
  }

  lemma RingStepKeeps(ring: Ring.Ring, step: Ring.Step)
    requires RingOk(ring) && Ring.Enabled(ring, step) && Ring.Orderly(ring, step)
    requires ring.read == 0 || !(step.Reject? || step.CompareAndSwap?)
    ensures RingOk(Ring.Next(ring, step))
  {
    Ring.DeliverStep(ring, step);
    Ring.ConservedStep(ring, step);
    Ring.FillingStep(ring, step);
  }

  lemma JoinedAfterPush(sys: System, ring: Ring.Ring, p: nat)
    requires Joined(sys) && p < |sys.ring.producers| && !sys.ring.producers[p].Idle?
    requires ring.read == sys.ring.read && ring.consumer == sys.ring.consumer
    requires |ring.producers| == |sys.ring.producers| && ring.producers == sys.ring.producers[p := ring.producers[p]]
    ensures Joined(sys.(ring := ring))
    ensures sys.ring.read == 0
  {
    assert !sys.fleet[p].receiver.Finished?;
    assert !Done(sys.fleet[p]);
  }

  lemma PushKeeps(cfg: Config, sys: System, s: Ring.Step)
    requires SystemOk(sys) && Enabled(sys, OfPush(s))
    ensures SystemOk(Next(cfg, sys, OfPush(s)))
  {
    Ring.PushStepFrame(sys.ring, s);
    JoinedAfterPush(sys, Ring.Next(sys.ring, s), s.p);
    RingStepKeeps(sys.ring, s);
  }

  lemma JoinedAfterDrain(sys: System, ring: Ring.Ring)
    requires Joined(sys) && AllDone(sys.fleet) && ring.producers == sys.ring.producers
    ensures Joined(sys.(ring := ring))
  {
  }

  lemma DrainKeeps(cfg: Config, sys: System, s: Ring.Step)
    requires SystemOk(sys) && Enabled(sys, OfDrain(s))
    ensures SystemOk(Next(cfg, sys, OfDrain(s)))
  {
    AllIdleWhenDone(sys);
    Ring.ConsumerStepFrame(sys.ring, s);
    JoinedAfterDrain(sys, Ring.Next(sys.ring, s));
    RingStepKeeps(sys.ring, s);
  }

  lemma FleetKeeps(cfg: Config, fleet: seq<Bot>, i: nat, s: BotStep)
    requires FleetOk(fleet) && i < |fleet| && BotEnabled(fleet[i], s)
    ensures FleetOk(fleet[i := BotNext(cfg, fleet[i], s)])
  {
    hide BotOk, BotNext, BotEnabled;
    BotStepKeeps(cfg, fleet[i], s);
    IndexKept(cfg, fleet[i], s);
  }

  lemma IndexKept(cfg: Config, b: Bot, s: BotStep)
    requires BotEnabled(b, s)
    ensures BotNext(cfg, b, s).index == b.index
  {
  }

  lemma PublishedSame(fleet: seq<Bot>, i: nat, b: Bot)
    requires i < |fleet| && b.recorded == fleet[i].recorded
    ensures Permutation(Published(fleet[i := b]), Published(fleet))
  {
    FlatMapUpdate(MetricsOf, fleet, i, b);
    SumCancels(multiset(Published(fleet[i := b])), multiset(Published(fleet)), multiset(MetricsOf(b)));
  }

  lemma PublishedOneMore(fleet: seq<Bot>, i: nat, b: Bot, r: Record)
    requires i < |fleet| && b.recorded == fleet[i].recorded + [r]
    ensures multiset(Published(fleet[i := b])) == multiset(Published(fleet)) + multiset{r.metric}
  {
    FlatMapUpdate(MetricsOf, fleet, i, b);
    FlatMapConcat(MetricOf, fleet[i].recorded, [r]);
    FlatMapOne(MetricOf, r);
    var before, after := multiset(Published(fleet)), multiset(Published(fleet[i := b]));
    var own := multiset(MetricsOf(fleet[i]));
    assert multiset(MetricsOf(b)) == own + multiset{r.metric};
    SumCancels(after, before + multiset{r.metric}, own);
  }

  lemma QuietBotKeeps(cfg: Config, sys: System, i: nat, s: BotStep)
    requires SystemOk(sys) && Enabled(sys, OfBot(i, s)) && !s.Publish?
    ensures SystemOk(Next(cfg, sys, OfBot(i, s)))
  {
    hide FleetOk, RingOk, Published;
    var sys' := Next(cfg, sys, OfBot(i, s));
    FleetKeeps(cfg, sys.fleet, i, s);
    PublishedSame(sys.fleet, i, sys'.fleet[i]);
    assert !Done(sys.fleet[i]);
  }

  lemma JoinedAfterCall(sys: System, i: nat, b: Bot, ring: Ring.Ring, p: Ring.Producer)
    requires Joined(sys) && i < |sys.fleet| && !sys.fleet[i].receiver.Finished? && !b.receiver.Finished?
    requires ring.producers == sys.ring.producers[i := p]
    requires ring.read == sys.ring.read && ring.consumer == sys.ring.consumer
    ensures Joined(System(sys.fleet[i := b], ring))
    ensures sys.ring.read == 0
  {
    assert !Done(sys.fleet[i]) && !Done(b);
  }

  lemma OfferedAfterCall(sys: System, i: nat, b: Bot, ring: Ring.Ring, r: Record)
    requires Offered(sys) && i < |sys.fleet| && b.recorded == sys.fleet[i].recorded + [r]
    requires ring.called == sys.ring.called + [r.metric]
    ensures Offered(System(sys.fleet[i := b], ring))
  {
    PublishedOneMore(sys.fleet, i, b, r);
  }

  lemma CallKeeps(ring: Ring.Ring, i: nat, m: Metric)
    requires RingOk(ring) && ring.read == 0 && Ring.Enabled(ring, Ring.Call(i, m))
    ensures var ring' := Ring.Next(ring, Ring.Call(i, m));
      && RingOk(ring') && ring'.called == ring.called + [m]
      && ring'.producers == ring.producers[i := Ring.Pushing(m)]
      && ring'.read == ring.read && ring'.consumer == ring.consumer
  {
    RingStepKeeps(ring, Ring.Call(i, m));
  }

  lemma PublishedKeeps(sys: System, i: nat, b: Bot, r: Record)
    requires SystemOk(sys) && i < |sys.fleet| && !sys.fleet[i].receiver.Finished? && !b.receiver.Finished?
    requires b.recorded == sys.fleet[i].recorded + [r] && FleetOk(sys.fleet[i := b])
    requires Ring.Enabled(sys.ring, Ring.Call(i, r.metric))
    ensures SystemOk(System(sys.fleet[i := b], Ring.Next(sys.ring, Ring.Call(i, r.metric))))
  {
    var ring := Ring.Next(sys.ring, Ring.Call(i, r.metric));
    assert !Done(sys.fleet[i]);
    CallKeeps(sys.ring, i, r.metric);
    OfferedAfterCall(sys, i, b, ring, r);
    JoinedAfterCall(sys, i, b, ring, Ring.Pushing(r.metric));
    AssembleOk(sys.fleet[i := b], ring);
  }

  lemma PublishKeeps(cfg: Config, sys: System, i: nat)
    requires SystemOk(sys) && Enabled(sys, OfBot(i, Publish))
    ensures SystemOk(Next(cfg, sys, OfBot(i, Publish)))
  {
    FleetKeeps(cfg, sys.fleet, i, Publish);
    PublishedKeeps(sys, i, BotNext(cfg, sys.fleet[i], Publish), sys.fleet[i].receiver.record);
  }

  lemma AssembleOk(fleet: seq<Bot>, ring: Ring.Ring)
    requires FleetOk(fleet) && RingOk(ring) && Joined(System(fleet, ring)) && Offered(System(fleet, ring))
    ensures SystemOk(System(fleet, ring))
  {
  }

  lemma SystemStepKeeps(cfg: Config, sys: System, step: SystemStep)
    requires SystemOk(sys) && Enabled(sys, step)
    ensures SystemOk(Next(cfg, sys, step))
  {
    match step
    case OfBot(i, s) =>
      if s.Publish? {
        PublishKeeps(cfg, sys, i);
      } else {
        QuietBotKeeps(cfg, sys, i, s);
      }
    case OfPush(s) => PushKeeps(cfg, sys, s);
    case OfDrain(s) => DrainKeeps(cfg, sys, s);
  }

  lemma {:induction false} SystemAlwaysOk(cfg: Config, sys: System, steps: seq<SystemStep>)
    requires SystemOk(sys) && Legal(cfg, sys, steps)
    ensures SystemOk(After(cfg, sys, steps))
    decreases |steps|
  {
    if steps != [] {
      SystemStepKeeps(cfg, sys, steps[0]);
      SystemAlwaysOk(cfg, Next(cfg, sys, steps[0]), steps[1..]);
    }
  }

  // ---------------------------------------------------------------------------------------------------------------
  // What the judge reports
  // ---------------------------------------------------------------------------------------------------------------

  /** The drain has returned: every bot finished and PopInto found nothing more. */
  ghost predicate Drained(sys: System) {
    AllDone(sys.fleet) && sys.ring.consumer.Resting? && sys.ring.read == sys.ring.write
  }

  /** The drain hands over every accepted metric, in ticket order: as many as were published, up to the size. */
  lemma DrainIsComplete(sys: System)
    requires SystemOk(sys) && Drained(sys)
    ensures sys.ring.popped == sys.ring.accepted
    ensures |sys.ring.popped| == Min(|Published(sys.fleet)|, sys.ring.size)
    ensures multiset(sys.ring.popped) <= multiset(Published(sys.fleet))
    ensures |Published(sys.fleet)| <= sys.ring.size ==> Permutation(sys.ring.popped, Published(sys.fleet))
  {
    AllIdleWhenDone(sys);
    Ring.FilledCount(sys.ring);
    Ring.PoppedIsAccepted(sys.ring);
    assert sys.ring.read == |sys.ring.accepted|;
    hide SystemOk, Drained, Ring.Conserved, Ring.AllIdle;
    assert sys.ring.accepted[..sys.ring.read] == sys.ring.accepted;
    assert multiset(sys.ring.called) == multiset(Published(sys.fleet));
    assert |multiset(sys.ring.called)| == |multiset(Published(sys.fleet))|;
  }

  lemma CountIsPublishedUpToCapacity(sys: System)
    requires SystemOk(sys) && Drained(sys)
    ensures Summary(sys.ring.popped).count == Min(|Published(sys.fleet)|, sys.ring.size)
  {
    DrainIsComplete(sys);
  }

  lemma {:induction false} CapacityFixed(cfg: Config, sys: System, steps: seq<SystemStep>)
    requires Legal(cfg, sys, steps)
    ensures After(cfg, sys, steps).ring.size == sys.ring.size
    decreases |steps|
  {
    if steps != [] {
      CapacityFixed(cfg, Next(cfg, sys, steps[0]), steps[1..]);
    }
  }

  /** A complete run of the judge: from a fresh fleet and ring of CAPACITY slots to the end of the drain. */
  ghost predicate CompleteRun(cfg: Config, unary: seq<bool>, run: seq<SystemStep>) {
    Legal(cfg, Start(unary, CAPACITY), run) && Drained(After(cfg, Start(unary, CAPACITY), run))
  }

  ghost function Outcome(cfg: Config, unary: seq<bool>, run: seq<SystemStep>): System
    requires CompleteRun(cfg, unary, run)
  {
    After(cfg, Start(unary, CAPACITY), run)
  }

  lemma OutcomeOk(cfg: Config, unary: seq<bool>, run: seq<SystemStep>)
    requires CompleteRun(cfg, unary, run)
    ensures var sys := Outcome(cfg, unary, run); SystemOk(sys) && Drained(sys) && sys.ring.size == CAPACITY
  {
    StartOk(unary, CAPACITY);
    SystemAlwaysOk(cfg, Start(unary, CAPACITY), run);
    CapacityFixed(cfg, Start(unary, CAPACITY), run);
  }

  /**
   * Schedule independence: two complete runs whose bots published the same metrics, in whatever order and on whatever
   * interleaving, are reported identically as long as the ring has room for them.
   */
  lemma ScheduleIndependence(cfg: Config, unary: seq<bool>, run: seq<SystemStep>,
      cfg': Config, unary': seq<bool>, run': seq<SystemStep>)
    requires CompleteRun(cfg, unary, run) && CompleteRun(cfg', unary', run')
    requires Permutation(Published(Outcome(cfg, unary, run).fleet), Published(Outcome(cfg', unary', run').fleet))
    requires |Published(Outcome(cfg, unary, run).fleet)| <= CAPACITY
    ensures Summary(Outcome(cfg, unary, run).ring.popped) == Summary(Outcome(cfg', unary', run').ring.popped)
  {
    var a, b := Outcome(cfg, unary, run), Outcome(cfg', unary', run');
    OutcomeOk(cfg, unary, run);
    OutcomeOk(cfg', unary', run');
    DrainIsComplete(a);
    DrainIsComplete(b);
    assert |multiset(Published(a.fleet))| == |multiset(Published(b.fleet))|;
    SummaryPermutation(a.ring.popped, b.ring.popped);
  }

  /** Beyond the ring's capacity too, the report depends only on which metrics were accepted. */
  lemma AcceptedDetermineReport(cfg: Config, unary: seq<bool>, run: seq<SystemStep>,
      cfg': Config, unary': seq<bool>, run': seq<SystemStep>)
    requires CompleteRun(cfg, unary, run) && CompleteRun(cfg', unary', run')
    requires Permutation(Outcome(cfg, unary, run).ring.accepted, Outcome(cfg', unary', run').ring.accepted)
    ensures Summary(Outcome(cfg, unary, run).ring.popped) == Summary(Outcome(cfg', unary', run').ring.popped)
  {
    OutcomeOk(cfg, unary, run);
    OutcomeOk(cfg', unary', run');
    DrainIsComplete(Outcome(cfg, unary, run));
    DrainIsComplete(Outcome(cfg', unary', run'));
    SummaryPermutation(Outcome(cfg, unary, run).ring.popped, Outcome(cfg', unary', run').ring.popped);
  }

  /** The drain that the steps describe and the sequential method over the same ring see the same metrics. */
  lemma SequentialDrainAgrees(sys: System, rb: RingBuffer)
    requires SystemOk(sys) && AllDone(sys.fleet) && sys.ring.read == 0
    requires rb.Valid() && rb.buf[..] == sys.ring.buf && rb.read == sys.ring.read && rb.write == sys.ring.write
    ensures rb.Contents() == sys.ring.accepted
  {
    AllIdleWhenDone(sys);
    Ring.HeldIsAccepted(sys.ring);
  }

  // ---------------------------------------------------------------------------------------------------------------
  // One metric per order, across the whole fleet
  // ---------------------------------------------------------------------------------------------------------------

  ghost predicate DistinctIds(ms: seq<Metric>) {
    forall i, j :: 0 <= i < j < |ms| ==> ms[i].orderId != ms[j].orderId
  }

  lemma {:induction false} MetricsAreRecords(rs: seq<Record>)
    ensures |FlatMap(MetricOf, rs)| == |rs|
    ensures forall i :: 0 <= i < |rs| ==> FlatMap(MetricOf, rs)[i] == rs[i].metric
  {
    if rs != [] {
      MetricsAreRecords(rs[..|rs| - 1]);
    }
  }

  lemma BotMetricsDistinct(b: Bot)
    requires BotOk(b)
    ensures DistinctIds(MetricsOf(b))
    ensures forall m :: m in MetricsOf(b) ==> exists k: nat :: m.orderId == OrderId(b.index, k)
  {
    MetricsAreRecords(b.recorded);
    forall i, j | 0 <= i < j < |b.recorded|
      ensures MetricsOf(b)[i].orderId != MetricsOf(b)[j].orderId
    {
      assert Taken(b)[i] == b.recorded[i] && Taken(b)[j] == b.recorded[j];
      assert OrderIdOf(Taken(b)[i]) != OrderIdOf(Taken(b)[j]);
    }
    forall m | m in MetricsOf(b)
      ensures exists k: nat :: m.orderId == OrderId(b.index, k)
    {
      var i :| 0 <= i < |b.recorded| && b.recorded[i].metric == m;
      assert Taken(b)[i] == b.recorded[i];
      assert ReportsItsOrder(b, b.recorded[i]);
      assert m.orderId == OrderId(b.index, b.inserted[m.orderId].seqNo);
    }
  }

  lemma {:induction false} FleetMetricsDistinct(fleet: seq<Bot>)
    requires FleetOk(fleet)
    ensures DistinctIds(Published(fleet))
    ensures forall m :: m in Published(fleet) ==> exists i: nat, k: nat :: i < |fleet| && m.orderId == OrderId(i, k)
  {
    if fleet != [] {
      var n := |fleet| - 1;
      var before, last := Published(fleet[..n]), MetricsOf(fleet[n]);
      FleetMetricsDistinct(fleet[..n]);
      BotMetricsDistinct(fleet[n]);
      forall x, y | x in before && y in last
        ensures x.orderId != y.orderId
      {
        var i: nat, k: nat :| i < n && x.orderId == OrderId(i, k);
        var l: nat :| y.orderId == OrderId(n, l);
        if x.orderId == y.orderId {
          OrderIdInjective(i, k, n, l);
        }
      }
      DistinctConcat(before, last);
    }
  }

  lemma DistinctConcat(a: seq<Metric>, b: seq<Metric>)
    requires DistinctIds(a) && DistinctIds(b)
    requires forall x, y :: x in a && y in b ==> x.orderId != y.orderId
    ensures DistinctIds(a + b)
  {
    var ab := a + b;
    forall i, j | 0 <= i < j < |ab|
      ensures ab[i].orderId != ab[j].orderId
    {
      if i < |a| <= j {
        assert ab[i] in a && ab[j] in b;
      }
    }
  }

  /** The drained metrics report pairwise different orders, each once, and each is a metric its bot published. */
  lemma OneMetricPerOrder(cfg: Config, unary: seq<bool>, run: seq<SystemStep>)
    requires CompleteRun(cfg, unary, run)
    ensures DistinctIds(Outcome(cfg, unary, run).ring.popped)
    ensures forall m :: m in Outcome(cfg, unary, run).ring.popped ==> m in Published(Outcome(cfg, unary, run).fleet)
  {
    var sys := Outcome(cfg, unary, run);
    OutcomeOk(cfg, unary, run);
    DrainIsComplete(sys);
    FleetMetricsDistinct(sys.fleet);
    DistinctSub(sys.ring.popped, Published(sys.fleet));
  }

  /** The steps bot i takes in a run. */
  function StepsOf(steps: seq<SystemStep>, i: nat): seq<BotStep> {
    if steps == [] then []
    else (if steps[0].OfBot? && steps[0].i == i then [steps[0].botStep] else []) + StepsOf(steps[1..], i)
  }

  /** A bot comes out of a run of the system as it comes out of its own steps alone. */
  lemma {:induction false} BotRunsAlone(cfg: Config, sys: System, steps: seq<SystemStep>, i: nat)
    requires Legal(cfg, sys, steps) && i < |sys.fleet|
    ensures Runs(cfg, sys.fleet[i], StepsOf(steps, i)) && i < |After(cfg, sys, steps).fleet|
    ensures AfterSteps(cfg, sys.fleet[i], StepsOf(steps, i)) == After(cfg, sys, steps).fleet[i]
    decreases |steps|
  {
    if steps != [] {
      var sys', step := Next(cfg, sys, steps[0]), steps[0];
      BotRunsAlone(cfg, sys', steps[1..], i);
      NextOfBot(cfg, sys, step, i);
      hide Next, Enabled, BotNext, BotEnabled, Runs, AfterSteps;
      if step.OfBot? && step.i == i {
        RunsFrom(cfg, sys.fleet[i], step.botStep, StepsOf(steps[1..], i));
      } else {
        assert StepsOf(steps, i) == StepsOf(steps[1..], i);
      }
    }
  }

  lemma NextOfBot(cfg: Config, sys: System, step: SystemStep, i: nat)
    requires Enabled(sys, step) && i < |sys.fleet|
    ensures |Next(cfg, sys, step).fleet| == |sys.fleet|
    ensures if step.OfBot? && step.i == i
            then BotEnabled(sys.fleet[i], step.botStep)
                 && Next(cfg, sys, step).fleet[i] == BotNext(cfg, sys.fleet[i], step.botStep)
            else Next(cfg, sys, step).fleet[i] == sys.fleet[i]
  {
    hide BotNext, BotEnabled;
  }

  /**
   * Every drained metric measures an order: some bot i issued it at step k of its own and received the answer at step
   * j, and the metric has the times read at these steps and the verdict due to this order and answer.
   */
  lemma DrainedMetricMeasuresOrder(cfg: Config, unary: seq<bool>, run: seq<SystemStep>, m: Metric)
      returns (i: nat, k: nat, j: nat)
    requires CompleteRun(cfg, unary, run) && m in Outcome(cfg, unary, run).ring.popped
    ensures i < |unary| && Measures(cfg, i, StepsOf(run, i), k, j, m)
  {
    var r;
    i, r := DrainedMetricReportsItsOrder(cfg, unary, run, m);
    FleetSizeFixed(cfg, Start(unary, CAPACITY), run);
    BotRunsAlone(cfg, Start(unary, CAPACITY), run, i);
    hide Runs, AfterSteps, ReportsItsOrder, Measures;
    assert r in Taken(Outcome(cfg, unary, run).fleet[i]);
    k, j := MetricOrigin(cfg, i, unary[i], StepsOf(run, i), r);
  }

  lemma {:induction false} FleetSizeFixed(cfg: Config, sys: System, steps: seq<SystemStep>)
    requires Legal(cfg, sys, steps)
    ensures |After(cfg, sys, steps).fleet| == |sys.fleet|
    decreases |steps|
  {
    if steps != [] {
      FleetSizeFixed(cfg, Next(cfg, sys, steps[0]), steps[1..]);
    }
  }

  /** Every drained metric is one its bot recorded. */
  lemma DrainedMetricReportsItsOrder(cfg: Config, unary: seq<bool>, run: seq<SystemStep>, m: Metric)
      returns (i: nat, r: Record)
    requires CompleteRun(cfg, unary, run) && m in Outcome(cfg, unary, run).ring.popped
    ensures var fleet := Outcome(cfg, unary, run).fleet;
      i < |fleet| && r in fleet[i].recorded && r.metric == m && ReportsItsOrder(fleet[i], r)
  {
    var fleet := Outcome(cfg, unary, run).fleet;
    OutcomeOk(cfg, unary, run);
    OneMetricPerOrder(cfg, unary, run);
    i := FlatMapMember(MetricsOf, fleet, m);
    MetricsAreRecords(fleet[i].recorded);
    var j :| 0 <= j < |fleet[i].recorded| && fleet[i].recorded[j].metric == m;
    r := fleet[i].recorded[j];
    assert r in Taken(fleet[i]) && BotOk(fleet[i]);
  }

  /** What the judge reports at the end of a run is about the published metrics: all, if 500000 slots suffice. */
  lemma RunIsReported(cfg: Config, unary: seq<bool>, run: seq<SystemStep>)
    requires CompleteRun(cfg, unary, run)
    ensures var sys := Outcome(cfg, unary, run); var stats := Summary(sys.ring.popped);
      && Reports(stats, sys.ring.popped)
      && stats.count == Min(|Published(sys.fleet)|, 500000)
      && (|Published(sys.fleet)| <= 500000 ==> Permutation(sys.ring.popped, Published(sys.fleet)))
  {
    var sys := Outcome(cfg, unary, run);
    OutcomeOk(cfg, unary, run);
    DrainIsComplete(sys);
    SummaryReports(sys.ring.popped);
    hide IsPercentileOf;
  }

  lemma DistinctSub(a: seq<Metric>, b: seq<Metric>)
    requires DistinctIds(b) && multiset(a) <= multiset(b)
    ensures DistinctIds(a)
    ensures forall m :: m in a ==> m in b
  {
    NoDuplicatesSub(a, b);
    forall m | m in a
      ensures m in b
    {
      assert m in multiset(a);
    }
    forall i, j | 0 <= i < j < |a|
      ensures a[i].orderId != a[j].orderId
    {
      assert a[i] in b && a[j] in b;
    }
  }

  // ---------------------------------------------------------------------------------------------------------------
  // The reference engine scores full marks
  // ---------------------------------------------------------------------------------------------------------------

  /** Every reply on bot i's stream is the reference engine's answer to one of that bot's requests. */
  ghost predicate HonestStep(sys: System, step: SystemStep)
    requires Enabled(sys, step)
  {
    step.OfBot? ==> FromReferenceEngine(sys.fleet[step.i], step.botStep)
  }

  ghost predicate HonestRun(cfg: Config, sys: System, steps: seq<SystemStep>)
    requires Legal(cfg, sys, steps)
    decreases |steps|
  {
    steps == [] || (HonestStep(sys, steps[0]) && HonestRun(cfg, Next(cfg, sys, steps[0]), steps[1..]))
  }

  ghost predicate FleetCorrect(cfg: Config, fleet: seq<Bot>) {
    forall i :: 0 <= i < |fleet| ==> !fleet[i].unary && OrdersAsBuilt(cfg, fleet[i]) && AllCorrect(fleet[i])
  }

  lemma FleetCorrectStep(cfg: Config, sys: System, step: SystemStep)
    requires SystemOk(sys) && Enabled(sys, step) && HonestStep(sys, step)
    requires FleetCorrect(cfg, sys.fleet) && cfg.symbol != ""
    ensures FleetCorrect(cfg, Next(cfg, sys, step).fleet)
  {
    hide RingOk, Joined, Offered, BotOk, OrdersAsBuilt, AllCorrect, FromReferenceEngine;
    if step.OfBot? {
      OrdersAsBuiltKept(cfg, sys.fleet[step.i], step.botStep);
      AllCorrectKept(cfg, sys.fleet[step.i], step.botStep);
    }
  }

  lemma {:induction false} FleetAlwaysCorrect(cfg: Config, sys: System, steps: seq<SystemStep>)
    requires SystemOk(sys) && Legal(cfg, sys, steps) && HonestRun(cfg, sys, steps)
    requires FleetCorrect(cfg, sys.fleet) && cfg.symbol != ""
    ensures FleetCorrect(cfg, After(cfg, sys, steps).fleet)
    decreases |steps|
  {
    if steps != [] {
      SystemStepKeeps(cfg, sys, steps[0]);
      FleetCorrectStep(cfg, sys, steps[0]);
      FleetAlwaysCorrect(cfg, Next(cfg, sys, steps[0]), steps[1..]);
    }
  }

  lemma PublishedCorrect(cfg: Config, fleet: seq<Bot>, m: Metric)
    requires FleetCorrect(cfg, fleet) && m in Published(fleet)
    ensures m.isCorrect
  {
    var i := FlatMapMember(MetricsOf, fleet, m);
    MetricsAreRecords(fleet[i].recorded);
    var j :| 0 <= j < |fleet[i].recorded| && fleet[i].recorded[j].metric == m;
    assert fleet[i].recorded[j] in Taken(fleet[i]);
  }

  /**
   * End to end: when every stream opened and the engine behind them is the reference engine, any non-empty drain
   * reports ratio 1 and a score of a million less p99, for any draws, timing and interleaving.
   */
  lemma ReferenceEngineScoresFullMarks(requested: Config, unary: seq<bool>, run: seq<SystemStep>)
    requires CompleteRun(WithDefaults(requested), unary, run)
    requires HonestRun(WithDefaults(requested), Start(unary, CAPACITY), run)
    requires forall i :: 0 <= i < |unary| ==> !unary[i]
    requires Outcome(WithDefaults(requested), unary, run).ring.popped != []
    ensures var stats := Summary(Outcome(WithDefaults(requested), unary, run).ring.popped);
      stats.correctRatio == 1.0 && stats.score == 1000000.0 - stats.p99Us as real
  {
    var cfg := WithDefaults(requested);
    var sys := Outcome(cfg, unary, run);
    StartOk(unary, CAPACITY);
    StartCorrect(cfg, unary);
    FleetAlwaysCorrect(cfg, Start(unary, CAPACITY), run);
    OneMetricPerOrder(cfg, unary, run);
    DrainedCorrect(cfg, sys);
    AllCorrectScore(sys.ring.popped);
  }

  lemma StartCorrect(cfg: Config, unary: seq<bool>)
    requires forall i :: 0 <= i < |unary| ==> !unary[i]
    ensures FleetCorrect(cfg, Start(unary, CAPACITY).fleet)
  {
  }

  lemma DrainedCorrect(cfg: Config, sys: System)
    requires FleetCorrect(cfg, sys.fleet) && forall m :: m in sys.ring.popped ==> m in Published(sys.fleet)
    ensures forall m :: m in sys.ring.popped ==> m.isCorrect
  {
    forall m | m in sys.ring.popped
      ensures m.isCorrect
    {
      PublishedCorrect(cfg, sys.fleet, m);
    }
  }
}
