/** A complete run of the judge with a non-empty drain exists: the theorems about such runs are not empty. */
module JudgeExample {
  import opened Decimal
  import opened Telemetry
  import opened Trading
  import Ring = RingProtocol
  import opened BotFleet
  import opened JudgeRun

  ghost predicate Follows(cfg: Config, sys: System, steps: seq<SystemStep>, final: System) {
    Legal(cfg, sys, steps) && HonestRun(cfg, sys, steps) && After(cfg, sys, steps) == final
  }

  ghost predicate Reaches(cfg: Config, sys: System, final: System) {
    exists steps :: Follows(cfg, sys, steps, final)
  }

  lemma Arrived(cfg: Config, sys: System)
    ensures Reaches(cfg, sys, sys)
  {
    assert Follows(cfg, sys, [], sys);
  }

  lemma OneStepMore(cfg: Config, sys: System, step: SystemStep, final: System)
    requires Enabled(sys, step) && HonestStep(sys, step) && Reaches(cfg, Next(cfg, sys, step), final)
    ensures Reaches(cfg, sys, final)
  {
    hide Enabled, Next, HonestStep;
    var steps :| Follows(cfg, Next(cfg, sys, step), steps, final);
    assert ([step] + steps)[1..] == steps;
    assert Follows(cfg, sys, [step] + steps, final);
  }

  /** The state of the one bot and of the ring after the bot's only order has been answered and its push called. */
  ghost predicate Called(sys: System, m: Metric) {
    && |sys.fleet| == 1 && !sys.fleet[0].unary && sys.fleet[0].sender.Ready? && sys.fleet[0].receiver.Receiving?
    && sys.ring == Ring.Init(CAPACITY, 1).(producers := [Ring.Pushing(m)], called := [m])
  }

  /** The one bot has sent its one order. */
  ghost predicate Asked(sys: System, req: OrderRequest) {
    && |sys.fleet| == 1 && !sys.fleet[0].unary && sys.fleet[0].sender.Ready? && sys.fleet[0].receiver.Receiving?
    && sys.ring == Ring.Init(CAPACITY, 1) && sys.ring.producers == [Ring.Idle]
    && req.orderId in sys.fleet[0].pending && req.orderId in sys.fleet[0].inserted
    && sys.fleet[0].inserted[req.orderId].request == req
  }

  lemma AskOnce(cfg: Config) returns (sys: System, req: OrderRequest)
    ensures Asked(sys, req)
    ensures forall final :: Reaches(cfg, sys, final) ==> Reaches(cfg, Start([false], CAPACITY), final)
  {
    hide Reaches, Print;
    var s0 := Start([false], CAPACITY);
    assert s0.ring.producers == [Ring.Idle];
    var tick := OfBot(0, Tick(Draw(0, 0, 0, 0.0), 0));
    var s1 := Next(cfg, s0, tick);
    var sent := OfBot(0, SendSucceeds);
    sys := Next(cfg, s1, sent);
    req := sys.fleet[0].inserted[s1.fleet[0].sender.orderId].request;
    forall final | Reaches(cfg, sys, final)
      ensures Reaches(cfg, s0, final)
    {
      OneStepMore(cfg, s1, sent, final);
      OneStepMore(cfg, s0, tick, final);
    }
  }

  lemma AnswerAndCall(cfg: Config, s0: System, req: OrderRequest) returns (sys: System, m: Metric)
    requires Asked(s0, req)
    ensures Called(sys, m) && forall final :: Reaches(cfg, sys, final) ==> Reaches(cfg, s0, final)
  {
    hide Reaches, Verdict;
    var response := PlaceOrder(req, 0.0, 0);
    StreamIsFromReferenceEngine(s0.fleet[0], [req], [Answers(0.0, 0)], [response], 0, 1000);
    assert response.orderId == req.orderId;
    var answer := OfBot(0, Receive(response, 1000));
    var s1 := Next(cfg, s0, answer);
    var publish := OfBot(0, Publish);
    sys := Next(cfg, s1, publish);
    m := s1.fleet[0].receiver.record.metric;
    assert sys.ring.producers == [Ring.Pushing(m)] && sys.ring.called == [m];
    forall final | Reaches(cfg, sys, final)
      ensures Reaches(cfg, s0, final)
    {
      OneStepMore(cfg, s1, publish, final);
      OneStepMore(cfg, s0, answer, final);
    }
  }

  /** The push runs through: the ring holds the metric, the producer is idle again. */
  lemma PushRunsThrough(cfg: Config, sys: System, m: Metric) returns (sys': System)
    requires Called(sys, m)
    ensures sys'.fleet == sys.fleet
    ensures sys'.ring.size == CAPACITY && sys'.ring.write == 1 && sys'.ring.read == 0 && |sys'.ring.buf| == CAPACITY
    ensures sys'.ring.producers == [Ring.Idle] && sys'.ring.consumer.Resting? && sys'.ring.popped == []
    ensures forall final :: Reaches(cfg, sys', final) ==> Reaches(cfg, sys, final)
  {
    hide Reaches;
    var s1 := Next(cfg, sys, OfPush(Ring.LoadWrite(0)));
    assert s1.ring.producers == [Ring.HasWrite(m, 0)];
    var s2 := Next(cfg, s1, OfPush(Ring.LoadRead(0)));
    assert s2.ring.producers == [Ring.HasBoth(m, 0, 0, false)];
    var s3 := Next(cfg, s2, OfPush(Ring.CompareAndSwap(0)));
    assert s3.ring.producers == [Ring.Storing(m, 0)];
    sys' := Next(cfg, s3, OfPush(Ring.Store(0)));
    assert sys'.ring.producers == [Ring.Idle];
    forall final | Reaches(cfg, sys', final)
      ensures Reaches(cfg, sys, final)
    {
      OneStepMore(cfg, s3, OfPush(Ring.Store(0)), final);
      OneStepMore(cfg, s2, OfPush(Ring.CompareAndSwap(0)), final);
      OneStepMore(cfg, s1, OfPush(Ring.LoadRead(0)), final);
      OneStepMore(cfg, sys, OfPush(Ring.LoadWrite(0)), final);
    }
  }

  /** The bot finishes and the drain takes the one metric and then finds no more. */
  lemma FinishAndDrain(cfg: Config, sys: System) returns (final: System)
    requires |sys.fleet| == 1 && !sys.fleet[0].unary && sys.fleet[0].sender.Ready? && sys.fleet[0].receiver.Receiving?
    requires sys.ring.size == CAPACITY && sys.ring.write == 1 && sys.ring.read == 0 && |sys.ring.buf| == CAPACITY
    requires sys.ring.producers == [Ring.Idle] && sys.ring.consumer.Resting? && sys.ring.popped == []
    ensures Reaches(cfg, sys, final) && Drained(final) && |final.ring.popped| == 1
  {
    hide Reaches;
    var s1 := Next(cfg, sys, OfBot(0, ContextDone));
    var s2 := Next(cfg, s1, OfBot(0, StreamEnds));
    assert AllDone(s2.fleet);
    var s3 := Next(cfg, s2, OfDrain(Ring.PopLoadRead(1)));
    var s4 := Next(cfg, s3, OfDrain(Ring.PopLoadWrite));
    var s5 := Next(cfg, s4, OfDrain(Ring.PopCopy));
    final := Next(cfg, s5, OfDrain(Ring.PopStoreRead));
    Arrived(cfg, final);
    OneStepMore(cfg, s5, OfDrain(Ring.PopStoreRead), final);
    OneStepMore(cfg, s4, OfDrain(Ring.PopCopy), final);
    OneStepMore(cfg, s3, OfDrain(Ring.PopLoadWrite), final);
    OneStepMore(cfg, s2, OfDrain(Ring.PopLoadRead(1)), final);
    OneStepMore(cfg, s1, OfBot(0, StreamEnds), final);
    OneStepMore(cfg, sys, OfBot(0, ContextDone), final);
  }

  /** One bot, one order, one answer of the reference engine, one metric drained. */
  lemma CompleteHonestRunExists(cfg: Config) returns (run: seq<SystemStep>)
    ensures CompleteRun(cfg, [false], run) && HonestRun(cfg, Start([false], CAPACITY), run)
    ensures |Outcome(cfg, [false], run).ring.popped| == 1
  {
    var asked, req := AskOnce(cfg);
    var sys, m := AnswerAndCall(cfg, asked, req);
    var pushed := PushRunsThrough(cfg, sys, m);
    var final := FinishAndDrain(cfg, pushed);
    run :| Follows(cfg, Start([false], CAPACITY), run, final);
  }
}
