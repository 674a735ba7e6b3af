/**
 * The bounded submission queue of the judge API: handlers enqueue, one worker judges. The pending counter is changed
 * outside the channel operation it counts, so it is modelled as a step of its own.
 */
module JudgeQueue {
  import opened Sequences

  const MAX_QUEUE := 20

  type Submission = string

  datatype Handler =
    | Free
    | Sent                            // the submission is in the channel, pending not yet incremented

  datatype Worker =
    | Waiting
    | Dequeued(sub: Submission)       // taken off the channel, pending not yet decremented
    | Counted(sub: Submission)        // pending decremented, running not yet incremented
    | Judging(sub: Submission)        // inside Run
    | Judged(sub: Submission)         // Run has returned, running not yet decremented
    | Stopped

  /** enqueued, started and judged are history. */
  datatype Queue = Queue(
    channel: seq<Submission>,
    pending: int,
    running: int,
    handlers: seq<Handler>,
    worker: Worker,
    enqueued: seq<Submission>,
    started: seq<Submission>,
    judged: seq<Submission>)

  function Init(handlerCount: nat): Queue {
    Queue([], 0, 0, seq(handlerCount, _ => Free), Waiting, [], [], [])
  }

  datatype Step =
    | Enqueue(h: nat, sub: Submission)
    | TurnAway(h: nat, sub: Submission)    // 503, judge queue full
    | IncrementPending(h: nat)
    | Dequeue
    | DecrementPending
    | IncrementRunning
    | RunReturns
    | DecrementRunning
    | ContextDone

  predicate Enabled(q: Queue, step: Step) {
    match step
    case Enqueue(h, _) => h < |q.handlers| && q.handlers[h].Free? && |q.channel| < MAX_QUEUE
    case TurnAway(h, _) => h < |q.handlers| && q.handlers[h].Free? && |q.channel| >= MAX_QUEUE
    case IncrementPending(h) => h < |q.handlers| && q.handlers[h].Sent?
    case Dequeue => q.worker.Waiting? && q.channel != []
    case DecrementPending => q.worker.Dequeued?
    case IncrementRunning => q.worker.Counted?
    case RunReturns => q.worker.Judging?
    case DecrementRunning => q.worker.Judged?
    case ContextDone => q.worker.Waiting?
  }

  function Next(q: Queue, step: Step): Queue
    requires Enabled(q, step)
  {
    match step
    case Enqueue(h, sub) =>
      q.(channel := q.channel + [sub], handlers := q.handlers[h := Sent], enqueued := q.enqueued + [sub])
    case TurnAway(_, _) => q
    case IncrementPending(h) => q.(pending := q.pending + 1, handlers := q.handlers[h := Free])
    case Dequeue =>
      q.(channel := q.channel[1..], worker := Dequeued(q.channel[0]), started := q.started + [q.channel[0]])
    case DecrementPending => q.(pending := q.pending - 1, worker := Counted(q.worker.sub))
    case IncrementRunning => q.(running := q.running + 1, worker := Judging(q.worker.sub))
    case RunReturns => q.(worker := Judged(q.worker.sub), judged := q.judged + [q.worker.sub])
    case DecrementRunning => q.(running := q.running - 1, worker := Waiting)
    case ContextDone => q.(worker := Stopped)
  }

  ghost predicate Legal(q: Queue, steps: seq<Step>)
    decreases |steps|
  {
    steps == [] || (Enabled(q, steps[0]) && Legal(Next(q, steps[0]), steps[1..]))
  }

  ghost function After(q: Queue, steps: seq<Step>): Queue
    requires Legal(q, steps)
    decreases |steps|
  {
    if steps == [] then q else After(Next(q, steps[0]), steps[1..])
  }

  predicate IsSent(h: Handler) {
    h.Sent?
  }

  /** Submissions enqueued whose increment is outstanding. */
  function NotYetCounted(q: Queue): nat {
    Count(IsSent, q.handlers)
  }

  /** Submissions dequeued whose decrement is outstanding. */
  function StillCounted(q: Queue): nat {
    if q.worker.Dequeued? then 1 else 0
  }

  /** The submission the worker is on and has not finished judging. */
  function Current(q: Queue): seq<Submission> {
    if q.worker.Dequeued? || q.worker.Counted? || q.worker.Judging? then [q.worker.sub] else []
  }

  ghost predicate QueueOk(q: Queue) {
    && |q.channel| <= MAX_QUEUE
    && q.pending == |q.channel| + StillCounted(q) - NotYetCounted(q)
    && q.running == (if q.worker.Judging? || q.worker.Judged? then 1 else 0)
    && q.started + q.channel == q.enqueued
    && q.judged + Current(q) == q.started
  }

  lemma InitOk(handlerCount: nat)
    ensures QueueOk(Init(handlerCount))
  {
    CountNone(IsSent, Init(handlerCount).handlers);
  }

  lemma QueueStep(q: Queue, step: Step)
    requires QueueOk(q) && Enabled(q, step)
    ensures QueueOk(Next(q, step))
  {
    match step
    case Enqueue(h, sub) =>
      CountUpdate(IsSent, q.handlers, h, Sent);
      assert q.started + (q.channel + [sub]) == q.started + q.channel + [sub];
    case IncrementPending(h) =>
      CountUpdate(IsSent, q.handlers, h, Free);
    case Dequeue =>
      assert q.channel == [q.channel[0]] + q.channel[1..];
      assert q.started + [q.channel[0]] + q.channel[1..] == q.started + q.channel;
    case _ =>
  }

  /**
   * Over every interleaving: the pending counter is off from the queue length by exactly the increments and the
   * decrement still outstanding, one submission runs at a time, and those judged are a prefix of those enqueued.
   */
  lemma {:induction false} QueueAlwaysOk(q: Queue, steps: seq<Step>)
    requires QueueOk(q) && Legal(q, steps)
    ensures QueueOk(After(q, steps))
    decreases |steps|
  {
    if steps != [] {
      QueueStep(q, steps[0]);
      QueueAlwaysOk(Next(q, steps[0]), steps[1..]);
    }
  }

  lemma QueueGuarantees(handlerCount: nat, steps: seq<Step>)
    requires Legal(Init(handlerCount), steps)
    ensures var q := After(Init(handlerCount), steps);
      && 0 <= q.running <= 1
      && q.judged <= q.started <= q.enqueued && |q.started| - |q.judged| <= 1
      && (q.pending < 0 <==> NotYetCounted(q) > |q.channel| + StillCounted(q))
  {
    InitOk(handlerCount);
    QueueAlwaysOk(Init(handlerCount), steps);
  }

  /** The submissions that the handlers of a run put into the channel, in order. */
  function PutInto(steps: seq<Step>): seq<Submission> {
    if steps == [] then []
    else (if steps[0].Enqueue? then [steps[0].sub] else []) + PutInto(steps[1..])
  }

  lemma {:induction false} EnqueuedIsSent(q: Queue, steps: seq<Step>)
    requires Legal(q, steps)
    ensures After(q, steps).enqueued == q.enqueued + PutInto(steps)
    ensures |After(q, steps).handlers| == |q.handlers|
    decreases |steps|
  {
    if steps != [] {
      EnqueuedIsSent(Next(q, steps[0]), steps[1..]);
    }
  }

  /**
   * A handler's submission is enqueued if fewer than 20 are waiting, whatever else is going on, and turned away
   * otherwise, which leaves the queue as it was.
   */
  lemma AdmittedUpToTwenty(handlerCount: nat, steps: seq<Step>, h: nat, sub: Submission)
    requires Legal(Init(handlerCount), steps)
    requires h < |After(Init(handlerCount), steps).handlers| && After(Init(handlerCount), steps).handlers[h].Free?
    ensures var q := After(Init(handlerCount), steps);
      && q.enqueued == PutInto(steps) && |q.channel| <= 20
      && (Enabled(q, Enqueue(h, sub)) <==> |q.channel| < 20)
      && (Enabled(q, TurnAway(h, sub)) <==> |q.channel| == 20)
      && (|q.channel| == 20 ==> Next(q, TurnAway(h, sub)) == q) && |q.handlers| == handlerCount
  {
    InitOk(handlerCount);
    QueueAlwaysOk(Init(handlerCount), steps);
    EnqueuedIsSent(Init(handlerCount), steps);
  }

  /** The worker's steps for one submission. */
  function Turn(): seq<Step> {
    [Dequeue, DecrementPending, IncrementRunning, RunReturns, DecrementRunning]
  }

  /** A worker that waits beside a submission can take the oldest one through, and then waits again. */
  lemma WorkerTakesOldest(q: Queue)
    requires q.worker.Waiting? && q.channel != []
    ensures Legal(q, Turn())
    ensures After(q, Turn()) == q.(channel := q.channel[1..], pending := q.pending - 1,
      started := q.started + [q.channel[0]], judged := q.judged + [q.channel[0]])
  {
    var q1 := Next(q, Dequeue);
    var q2 := Next(q1, DecrementPending);
    var q3 := Next(q2, IncrementRunning);
    var q4 := Next(q3, RunReturns);
    assert Next(q4, DecrementRunning) == q.(channel := q.channel[1..], pending := q.pending - 1,
      started := q.started + [q.channel[0]], judged := q.judged + [q.channel[0]]);
    FiveSteps(q, Dequeue, DecrementPending, IncrementRunning, RunReturns, DecrementRunning);
  }

  lemma FiveSteps(q: Queue, a: Step, b: Step, c: Step, d: Step, e: Step)
    requires Enabled(q, a) && Enabled(Next(q, a), b) && Enabled(Next(Next(q, a), b), c)
    requires Enabled(Next(Next(Next(q, a), b), c), d) && Enabled(Next(Next(Next(Next(q, a), b), c), d), e)
    ensures Legal(q, [a, b, c, d, e])
    ensures After(q, [a, b, c, d, e]) == Next(Next(Next(Next(Next(q, a), b), c), d), e)
  {
    hide Enabled, Next, Legal, After;
    var q1 := Next(q, a);
    var q2 := Next(q1, b);
    var q3 := Next(q2, c);
    var q4 := Next(q3, d);
    OneStep(q4, e);
    Unroll(q3, d, [e]);
    Unroll(q2, c, [d, e]);
    Unroll(q1, b, [c, d, e]);
    Unroll(q, a, [b, c, d, e]);
    assert [a] + [b, c, d, e] == [a, b, c, d, e] && [b] + [c, d, e] == [b, c, d, e];
    assert [c] + [d, e] == [c, d, e] && [d] + [e] == [d, e];
  }

  lemma OneStep(q: Queue, step: Step)
    requires Enabled(q, step)
    ensures Legal(q, [step]) && After(q, [step]) == Next(q, step)
  {
    assert [step][1..] == [];
  }

  lemma Unroll(q: Queue, step: Step, rest: seq<Step>)
    requires Enabled(q, step) && Legal(Next(q, step), rest)
    ensures Legal(q, [step] + rest) && After(q, [step] + rest) == After(Next(q, step), rest)
  {
    assert ([step] + rest)[1..] == rest;
  }

  /** With no increment and no decrement outstanding the counter is the queue length. */
  lemma QuiescentPending(handlerCount: nat, steps: seq<Step>)
    requires Legal(Init(handlerCount), steps)
    requires var q := After(Init(handlerCount), steps);
      !q.worker.Dequeued? && forall h :: h in q.handlers ==> h.Free?
    ensures var q := After(Init(handlerCount), steps); 0 <= q.pending == |q.channel| <= MAX_QUEUE
  {
    InitOk(handlerCount);
    QueueAlwaysOk(Init(handlerCount), steps);
    CountNone(IsSent, After(Init(handlerCount), steps).handlers);
  }

  /** The counter does go negative: the worker may overtake the handler's increment. */
  lemma PendingCanBeNegative(sub: Submission)
    ensures var steps := [Enqueue(0, sub), Dequeue, DecrementPending];
      Legal(Init(1), steps) && After(Init(1), steps).pending == -1
  {
    var q := Init(1);
    var q1 := Next(q, Enqueue(0, sub));
    var q2 := Next(q1, Dequeue);
    assert [Enqueue(0, sub), Dequeue, DecrementPending][1..] == [Dequeue, DecrementPending];
    assert [Dequeue, DecrementPending][1..] == [DecrementPending];
    assert [DecrementPending][1..] == [];
    assert Legal(q2, [DecrementPending]) && After(q2, [DecrementPending]).pending == -1;
  }
}
