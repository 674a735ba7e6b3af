/**
 * Runs of one bot, from the first tick on. What its metrics say is traced back to the steps of the run themselves: the
 * tick that issued the order and the reply that answered it.
 */
module BotRuns {
  import opened Sequences
  import opened Decimal
  import opened Telemetry
  import opened Trading
  import opened BotFleet

  /** steps can be taken one after another from b. */
  ghost predicate Runs(cfg: Config, b: Bot, steps: seq<BotStep>)
    decreases |steps|, 0
  {
    steps == [] ||
    (Runs(cfg, b, steps[..|steps| - 1])
     && BotEnabled(AfterSteps(cfg, b, steps[..|steps| - 1]), steps[|steps| - 1]))
  }

  ghost function AfterSteps(cfg: Config, b: Bot, steps: seq<BotStep>): Bot
    requires Runs(cfg, b, steps)
    decreases |steps|, 1
  {
    if steps == [] then b else BotNext(cfg, AfterSteps(cfg, b, steps[..|steps| - 1]), steps[|steps| - 1])
  }

  lemma LastStep(cfg: Config, b: Bot, steps: seq<BotStep>) returns (before: seq<BotStep>, b': Bot, step: BotStep)
    requires Runs(cfg, b, steps) && steps != []
    ensures before == steps[..|steps| - 1] && step == steps[|before|]
    ensures Runs(cfg, b, before) && b' == AfterSteps(cfg, b, before)
    ensures BotEnabled(b', step) && AfterSteps(cfg, b, steps) == BotNext(cfg, b', step)
  {
    before, step := steps[..|steps| - 1], steps[|steps| - 1];
    b' := AfterSteps(cfg, b, before);
  }

  predicate Issues(step: BotStep) {
    step.Tick? || step.UnaryOrder?
  }

  /** The number of the order that step k issues: orders are numbered from 1. */
  function OrderNo(steps: seq<BotStep>, k: nat): nat
    requires k < |steps|
  {
    Count(Issues, steps[..k + 1])
  }

  // ---------------------------------------------------------------------------------------------------------------
  // Single steps
  // ---------------------------------------------------------------------------------------------------------------

  /** A tick can be taken for any draw and clock reading; it issues the drawn order, sent at that time, and no other. */
  lemma TickIssues(cfg: Config, b: Bot, d: Draw, t: nat)
    requires !b.unary && b.sender.Ready? && ValidDraw(d)
    ensures BotEnabled(b, Tick(d, t))
    ensures var b', id := BotNext(cfg, b, Tick(d, t)), OrderId(b.index, b.seqNo + 1);
      && id in b'.pending && id in b'.inserted && b'.pending == b.pending[id := b'.pending[id]]
      && b'.pending[id].sentNs == b'.inserted[id].sentNs == t
      && b'.pending[id].isCancel == b'.inserted[id].isCancel
      && OrderAsDrawn(b'.inserted[id].request, b'.inserted[id].isCancel, b.index, b.seqNo + 1, cfg.symbol, d)
      && b'.sender == Sending(id) && b'.seqNo == b.seqNo + 1
      && b'.receiver == b.receiver && b'.recorded == b.recorded && b'.withdrawn == b.withdrawn
  {
    var (req, isCancel) := Order(b.index, b.seqNo + 1, cfg.symbol, d);
    OrderMix(b.index, b.seqNo + 1, cfg.symbol, d, req, isCancel);
    hide OrderId, OrderAsDrawn, BotId;
  }

  /** A unary order is the drawn one too, sent and received at the times read. */
  lemma UnaryIssues(cfg: Config, b: Bot, d: Draw, t: nat, answer: Answer, recvNs: nat)
    requires b.unary && b.sender.Ready? && b.receiver.Receiving? && ValidDraw(d)
    ensures BotEnabled(b, UnaryOrder(d, t, answer, recvNs))
    ensures var b', id := BotNext(cfg, b, UnaryOrder(d, t, answer, recvNs)), OrderId(b.index, b.seqNo + 1);
      && id in b'.inserted && b'.inserted[id].sentNs == t
      && OrderAsDrawn(b'.inserted[id].request, b'.inserted[id].isCancel, b.index, b.seqNo + 1, cfg.symbol, d)
      && b'.receiver.Holding? && b'.receiver.record.metric.orderId == id
      && b'.receiver.record.metric.sentTimeNs == t && b'.receiver.record.metric.recvTimeNs == recvNs
      && b'.seqNo == b.seqNo + 1 && b'.sender == b.sender
  {
    var (req, isCancel) := Order(b.index, b.seqNo + 1, cfg.symbol, d);
    OrderMix(b.index, b.seqNo + 1, cfg.symbol, d, req, isCancel);
    hide OrderId, OrderAsDrawn, BotId, Verdict;
  }

  /** A send may succeed or fail; one that succeeds leaves its order pending and the sender ready for the next tick. */
  lemma SendEndsEitherWay(cfg: Config, b: Bot)
    requires b.sender.Sending?
    ensures BotEnabled(b, SendSucceeds) && BotNext(cfg, b, SendSucceeds) == b.(sender := Ready)
    ensures BotEnabled(b, SendFails)
  {
  }

  /**
   * The engine may answer anything at any time, the stream may end at any time, and so may the run: what is pending
   * then stays pending, and the receiver goes on until the stream ends.
   */
  lemma AnythingMayHappen(cfg: Config, b: Bot, resp: OrderResponse, recvNs: nat)
    requires !b.unary
    ensures b.receiver.Receiving? ==>
              && BotEnabled(b, Receive(resp, recvNs))
              && BotEnabled(b, StreamEnds) && BotNext(cfg, b, StreamEnds) == b.(receiver := Finished)
    ensures b.sender.Ready? ==>
              BotEnabled(b, ContextDone) && BotNext(cfg, b, ContextDone) == b.(sender := Closed)
    ensures b.receiver.Holding? ==>
              && BotEnabled(b, Publish)
              && BotNext(cfg, b, Publish) == b.(receiver := Receiving, recorded := b.recorded + [b.receiver.record])
  {
    hide Order, Verdict;
  }

  // ---------------------------------------------------------------------------------------------------------------
  // Runs said from their first step
  // ---------------------------------------------------------------------------------------------------------------

  lemma RunsOne(cfg: Config, b: Bot, step: BotStep)
    requires BotEnabled(b, step)
    ensures Runs(cfg, b, [step]) && AfterSteps(cfg, b, [step]) == BotNext(cfg, b, step)
  {
    hide BotEnabled, BotNext;
    assert [step][..0] == [];
  }

  lemma {:induction false} RunsFrom(cfg: Config, b: Bot, first: BotStep, rest: seq<BotStep>)
    requires BotEnabled(b, first) && Runs(cfg, BotNext(cfg, b, first), rest)
    ensures Runs(cfg, b, [first] + rest)
    ensures AfterSteps(cfg, b, [first] + rest) == AfterSteps(cfg, BotNext(cfg, b, first), rest)
    decreases |rest|
  {
    hide BotEnabled, BotNext;
    if rest == [] {
      RunsOne(cfg, b, first);
      assert [first] + rest == [first];
    } else {
      var before, b', step := LastStep(cfg, BotNext(cfg, b, first), rest);
      RunsFrom(cfg, b, first, before);
      RunsMore(cfg, b, [first] + before, step);
      assert [first] + rest == ([first] + before) + [step];
    }
  }

  lemma RunsMore(cfg: Config, b: Bot, steps: seq<BotStep>, step: BotStep)
    requires Runs(cfg, b, steps) && BotEnabled(AfterSteps(cfg, b, steps), step)
    ensures Runs(cfg, b, steps + [step])
    ensures AfterSteps(cfg, b, steps + [step]) == BotNext(cfg, AfterSteps(cfg, b, steps), step)
  {
    hide BotEnabled, BotNext;
    SnocPrefix(steps, step);
  }

  // ---------------------------------------------------------------------------------------------------------------
  // Whole runs
  // ---------------------------------------------------------------------------------------------------------------

  lemma {:induction false} RunKeepsOk(cfg: Config, index: nat, unary: bool, steps: seq<BotStep>)
    requires Runs(cfg, NewBot(index, unary), steps)
    ensures var b := AfterSteps(cfg, NewBot(index, unary), steps);
      BotOk(b) && b.index == index && b.unary == unary && b.seqNo == Count(Issues, steps)
  {
    if steps == [] {
      NewBotOk(index, unary);
    } else {
      var before, step := steps[..|steps| - 1], steps[|steps| - 1];
      RunKeepsOk(cfg, index, unary, before);
      BotStepKeeps(cfg, AfterSteps(cfg, NewBot(index, unary), before), step);
      hide BotOk;
      StepFrame(cfg, AfterSteps(cfg, NewBot(index, unary), before), step);
    }
  }

  lemma StepFrame(cfg: Config, b: Bot, step: BotStep)
    requires BotEnabled(b, step)
    ensures var b' := BotNext(cfg, b, step);
      b'.index == b.index && b'.unary == b.unary && b'.seqNo == b.seqNo + if Issues(step) then 1 else 0
  {
  }

  lemma OrderNoBefore(steps: seq<BotStep>, k: nat)
    requires k < |steps| - 1
    ensures OrderNo(steps[..|steps| - 1], k) == OrderNo(steps, k)
  {
    assert steps[..|steps| - 1][..k + 1] == steps[..k + 1];
  }

  lemma OrderNoLast(steps: seq<BotStep>)
    requires steps != []
    ensures OrderNo(steps, |steps| - 1) == Count(Issues, steps)
  {
    assert steps[..|steps|] == steps;
  }

  /** Step k is the tick that issued order id, at the time and of the kind the entry says. */
  ghost predicate IssuedAt(index: nat, steps: seq<BotStep>, k: nat, id: string, entry: PendingEntry) {
    && k < |steps| && steps[k].Tick? && id == OrderId(index, OrderNo(steps, k))
    && entry == PendingEntry(steps[k].sentNs, steps[k].draw.roll == 9)
  }

  lemma IssuedLater(index: nat, steps: seq<BotStep>, before: seq<BotStep>, k: nat, id: string, entry: PendingEntry)
    requires steps != [] && before == steps[..|steps| - 1] && IssuedAt(index, before, k, id, entry)
    ensures IssuedAt(index, steps, k, id, entry)
  {
    hide OrderId, OrderNo;
    OrderNoBefore(steps, k);
  }

  lemma IssuedNow(index: nat, steps: seq<BotStep>, id: string, entry: PendingEntry)
    requires steps != [] && steps[|steps| - 1].Tick? && id == OrderId(index, Count(Issues, steps))
    requires entry == PendingEntry(steps[|steps| - 1].sentNs, steps[|steps| - 1].draw.roll == 9)
    ensures IssuedAt(index, steps, |steps| - 1, id, entry)
  {
    hide OrderId, OrderNo;
    OrderNoLast(steps);
  }

  /** A pending order is one a tick issued, and its entry has that tick's time and kind. */
  lemma {:induction false} PendingOrigin(cfg: Config, index: nat, unary: bool, steps: seq<BotStep>, id: string)
      returns (k: nat)
    requires Runs(cfg, NewBot(index, unary), steps)
    requires id in AfterSteps(cfg, NewBot(index, unary), steps).pending
    ensures IssuedAt(index, steps, k, id, AfterSteps(cfg, NewBot(index, unary), steps).pending[id])
  {
    NothingPending(index, unary);
    var before, b, step := LastStep(cfg, NewBot(index, unary), steps);
    hide IssuedAt, BotNext, BotEnabled, Runs, AfterSteps, OrderId;
    PendingStep(cfg, b, step, id);
    if step.Tick? && id == OrderId(b.index, b.seqNo + 1) {
      k := |before|;
      SeqNoCounts(cfg, index, unary, steps, b, step);
      IssuedNow(index, steps, id, AfterSteps(cfg, NewBot(index, unary), steps).pending[id]);
    } else {
      k := PendingOrigin(cfg, index, unary, before, id);
      IssuedLater(index, steps, before, k, id, b.pending[id]);
    }
  }

  /** The order issued by the last step has the number of issuing steps so far. */
  lemma SeqNoCounts(cfg: Config, index: nat, unary: bool, steps: seq<BotStep>, b: Bot, step: BotStep)
    requires Runs(cfg, NewBot(index, unary), steps) && BotEnabled(b, step) && Issues(step)
    requires AfterSteps(cfg, NewBot(index, unary), steps) == BotNext(cfg, b, step)
    ensures b.index == index && b.unary == unary && b.seqNo + 1 == Count(Issues, steps)
  {
    hide BotOk, BotNext, BotEnabled;
    RunKeepsOk(cfg, index, unary, steps);
    StepFrame(cfg, b, step);
  }

  lemma NothingPending(index: nat, unary: bool)
    ensures NewBot(index, unary).pending == map[] && Taken(NewBot(index, unary)) == []
  {
  }

  /** A step leaves a pending entry as it was, unless it is the tick that makes it. */
  lemma PendingStep(cfg: Config, b: Bot, step: BotStep, id: string)
    requires BotEnabled(b, step) && id in BotNext(cfg, b, step).pending
    ensures if step.Tick? && id == OrderId(b.index, b.seqNo + 1)
            then BotNext(cfg, b, step).pending[id] == PendingEntry(step.sentNs, step.draw.roll == 9)
            else id in b.pending && BotNext(cfg, b, step).pending[id] == b.pending[id]
  {
    hide OrderId, BotId;
  }

  /**
   * m is the metric of the order issued at step k, answered by the reply received at step j: its own times, and correct
   * if a cancel probe was rejected or any other order filled, if only in part.
   */
  ghost predicate Measures(cfg: Config, index: nat, steps: seq<BotStep>, k: nat, j: nat, m: Metric) {
    && k < |steps| && j < |steps| && Issues(steps[k])
    && m.testRunId == cfg.testRunId && m.contestantId == cfg.contestantId && m.clientId == BotId(index)
    && m.orderId == OrderId(index, OrderNo(steps, k))
    && m.sentTimeNs == steps[k].sentNs
    && (if steps[k].Tick? then
          && k < j && steps[j].Receive? && steps[j].response.orderId == m.orderId
          && Answers(m, steps[k].draw.roll == 9, steps[j].response, steps[j].recvNs)
        else if steps[k].answer.Answered? then
          j == k && Answers(m, steps[k].draw.roll == 9, steps[k].answer.response, steps[k].recvNs)
        else
          && j == k && m.recvTimeNs == steps[k].recvNs && m.engineTimeNs == 0
          && !m.isCorrect && m.errorCode == steps[k].answer.message)
  }

  /** What the answer contributes to a metric. */
  ghost predicate Answers(m: Metric, isProbe: bool, resp: OrderResponse, recvNs: nat) {
    && m.recvTimeNs == recvNs && m.engineTimeNs == resp.timestampNs
    && (m.isCorrect <==>
          if isProbe then resp.status == "REJECTED" else resp.status == "FILLED" || resp.status == "PARTIALLY_FILLED")
    && m.errorCode == (if m.isCorrect then "" else "WRONG_STATUS:" + resp.status)
  }

  /**
   * Every metric a bot takes measures one order it issued in this run and the answer to it: traced to the very steps of
   * the run, whatever the engine answered and however sends and replies interleaved.
   */
  lemma {:induction false} MetricOrigin(cfg: Config, index: nat, unary: bool, steps: seq<BotStep>, r: Record)
      returns (k: nat, j: nat)
    requires Runs(cfg, NewBot(index, unary), steps)
    requires r in Taken(AfterSteps(cfg, NewBot(index, unary), steps))
    ensures Measures(cfg, index, steps, k, j, r.metric)
  {
    NothingPending(index, unary);
    var before, b, step := LastStep(cfg, NewBot(index, unary), steps);
    hide BotOk, BotNext, BotEnabled, Taken, Measures, Runs, AfterSteps, IssuedAt;
    if r in Taken(b) {
      k, j := MetricOrigin(cfg, index, unary, before, r);
      MeasuresLater(cfg, index, steps, before, k, j, r.metric);
    } else {
      TakenStep(cfg, b, step, r);
      j := |before|;
      if step.Receive? {
        k := PendingOrigin(cfg, index, unary, before, step.response.orderId);
        RunKeepsOk(cfg, index, unary, before);
        ReceivedMeasures(cfg, index, b, steps, before, k, r);
      } else {
        k := j;
        SeqNoCounts(cfg, index, unary, steps, b, step);
        UnaryMeasures(cfg, index, b, steps, r);
      }
    }
  }

  lemma MeasuresLater(cfg: Config, index: nat, steps: seq<BotStep>, before: seq<BotStep>, k: nat, j: nat, m: Metric)
    requires steps != [] && before == steps[..|steps| - 1] && Measures(cfg, index, before, k, j, m)
    ensures Measures(cfg, index, steps, k, j, m)
  {
    hide Answers, OrderId, BotId, OrderNo;
    OrderNoBefore(steps, k);
  }

  /** Only a reply to a pending order or a unary order adds a metric. */
  lemma TakenStep(cfg: Config, b: Bot, step: BotStep, r: Record)
    requires BotEnabled(b, step) && r in Taken(BotNext(cfg, b, step)) && r !in Taken(b)
    ensures (step.Receive? && step.response.orderId in b.pending) || step.UnaryOrder?
    ensures BotNext(cfg, b, step).receiver == Holding(r)
  {
    hide OrderId, BotId, Verdict, Order;
  }

  lemma ReceivedMeasures(cfg: Config, index: nat, b: Bot, steps: seq<BotStep>, before: seq<BotStep>, k: nat, r: Record)
    requires steps != [] && before == steps[..|steps| - 1] && b.index == index
    requires steps[|before|].Receive? && BotEnabled(b, steps[|before|])
    requires var id := steps[|before|].response.orderId;
      id in b.pending && IssuedAt(index, before, k, id, b.pending[id])
    requires BotNext(cfg, b, steps[|before|]).receiver == Holding(r)
    ensures Measures(cfg, index, steps, k, |before|, r.metric)
  {
    hide OrderId, BotId, OrderNo;
    OrderNoBefore(steps, k);
  }

  lemma UnaryMeasures(cfg: Config, index: nat, b: Bot, steps: seq<BotStep>, r: Record)
    requires steps != [] && steps[|steps| - 1].UnaryOrder? && BotEnabled(b, steps[|steps| - 1]) && b.index == index
    requires BotNext(cfg, b, steps[|steps| - 1]).receiver == Holding(r) && b.seqNo + 1 == Count(Issues, steps)
    ensures Measures(cfg, index, steps, |steps| - 1, |steps| - 1, r.metric)
  {
    var step := steps[|steps| - 1];
    UnaryIssues(cfg, b, step.draw, step.sentNs, step.answer, step.recvNs);
    UnaryAnswers(cfg, b, step, r);
    hide OrderId, BotId, OrderNo, BotNext, BotEnabled, Answers;
    OrderNoLast(steps);
  }

  lemma UnaryAnswers(cfg: Config, b: Bot, step: BotStep, r: Record)
    requires step.UnaryOrder? && BotEnabled(b, step) && BotNext(cfg, b, step).receiver == Holding(r)
    ensures var m := r.metric;
      && m.testRunId == cfg.testRunId && m.contestantId == cfg.contestantId && m.clientId == BotId(b.index)
      && (step.answer.Answered? ==> Answers(m, step.draw.roll == 9, step.answer.response, step.recvNs))
      && (step.answer.Failed? ==>
            m.recvTimeNs == step.recvNs && m.engineTimeNs == 0 && !m.isCorrect && m.errorCode == step.answer.message)
  {
    hide OrderId, BotId;
  }

  // Withdrawn orders.

  predicate IsSendFailure(step: BotStep) {
    step.SendFails?
  }

  /** What a run has withdrawn is at most its latest order, once a send of it has failed and the sender has closed. */
  ghost predicate WithdrawsAtMost(b: Bot, steps: seq<BotStep>) {
    && b.withdrawn <= {OrderId(b.index, b.seqNo)}
    && (b.withdrawn != {} ==> b.sender.Closed? && Count(IsSendFailure, steps) > 0)
    && (b.sender.Sending? ==> b.sender.orderId == OrderId(b.index, b.seqNo))
    && (b.unary ==> b.withdrawn == {} && !b.sender.Sending?)
  }

  lemma {:induction false} WithdrawnOrigin(cfg: Config, index: nat, unary: bool, steps: seq<BotStep>)
    requires Runs(cfg, NewBot(index, unary), steps)
    ensures WithdrawsAtMost(AfterSteps(cfg, NewBot(index, unary), steps), steps)
  {
    if steps == [] {
      assert NewBot(index, unary).withdrawn == {} && NewBot(index, unary).sender.Ready?;
    } else {
      var before, b, step := LastStep(cfg, NewBot(index, unary), steps);
      hide BotNext, BotEnabled, Runs, AfterSteps, WithdrawsAtMost;
      WithdrawnOrigin(cfg, index, unary, before);
      WithdrawnStep(cfg, b, steps, before, step);
    }
  }

  lemma WithdrawnStep(cfg: Config, b: Bot, steps: seq<BotStep>, before: seq<BotStep>, step: BotStep)
    requires steps != [] && before == steps[..|steps| - 1] && step == steps[|steps| - 1]
    requires BotEnabled(b, step) && WithdrawsAtMost(b, before)
    ensures WithdrawsAtMost(BotNext(cfg, b, step), steps)
  {
    hide OrderId, BotId, Verdict;
  }

  /** An order id reads back as the number of its bot, from 1, and its own. */
  lemma OrderIdReads(i: nat, n: nat)
    ensures var bot, order := Print(i + 1), Print(n);
      && OrderId(i, n) == "bot-" + bot + "-" + order
      && Value(bot) == i + 1 && Value(order) == n
  {
    ValueOfPrint(i + 1);
    ValueOfPrint(n);
  }

  /** Of the ten equally likely rolls six are market orders, three limit orders and one a cancel probe. */
  lemma OrderShares(index: nat, seqNo: nat, symbol: string, d: Draw)
    requires ValidDraw(d)
    ensures var (req, isCancel) := Order(index, seqNo, symbol, d);
      && (req.orderType.MARKET? <==> d.roll in {0, 1, 2, 3, 4, 5})
      && (req.orderType.LIMIT? && !isCancel <==> d.roll in {6, 7, 8})
      && (isCancel <==> d.roll in {9})
  {
  }
}
