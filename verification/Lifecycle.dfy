/**
 * One judge run from submission to saved result, and the worker that performs them one after another: what is saved,
 * and which containers exist when.
 */
module Lifecycle {
  import opened Sequences
  import opened Telemetry
  import opened JudgeStats
  import Decimal
  import Sizes

  const RING_SIZE := 500000

  datatype Status = RUNNING | COMPLETED | FAILED

  datatype Submission = Submission(id: string, contestantId: string, imageTag: string)

  datatype RunResult = RunResult(
    runId: string,
    submissionId: string,
    contestantId: string,
    status: Status,
    totalOrders: nat,
    correctRatio: real,
    p50Us: nat,
    p90Us: nat,
    p99Us: nat,
    score: real,
    error: string)

  /** How a call that may fail went. */
  datatype Outcome = Pass | Fail(message: string)

  /** What the outside world does to one run: the network, the container engine, the sandboxed engine and the clock. */
  datatype World = World(
    network: Outcome,
    create: Outcome,
    start: Outcome,
    ready: Outcome,
    validation: Outcome,
    fleet: Outcome,
    deadlinePassed: bool,
    metrics: seq<Metric>)              // in the order in which the fleet's pushes win their tickets

  datatype Effect =
    | Save(result: RunResult)
    | Create(id: nat)
    | Start(id: nat)
    | Stop(id: nat)
    | Remove(id: nat)

  // ---------------------------------------------------------------------------------------------------------------
  // What a trace of effects means for the one host port
  // ---------------------------------------------------------------------------------------------------------------

  /** Container use as an observer follows it; Clash once a container is created beside another or used when gone. */
  datatype Port = Unused | Used(id: nat) | Clash

  function Observe(p: Port, e: Effect): Port {
    match e
    case Save(_) => p
    case Create(id) => if p.Unused? then Used(id) else Clash
    case Start(id) => if p == Used(id) then p else Clash
    case Stop(id) => if p == Used(id) then p else Clash
    case Remove(id) => if p == Used(id) then Unused else Clash
  }

  function PortAfter(p: Port, t: seq<Effect>): Port {
    if t == [] then p else Observe(PortAfter(p, t[..|t| - 1]), t[|t| - 1])
  }

  lemma {:induction false} PortAfterConcat(p: Port, a: seq<Effect>, b: seq<Effect>)
    ensures PortAfter(p, a + b) == PortAfter(PortAfter(p, a), b)
  {
    if b == [] {
      assert a + b == a;
    } else {
      PortAfterConcat(p, a, b[..|b| - 1]);
      assert (a + b)[..|a + b| - 1] == a + b[..|b| - 1];
    }
  }

  predicate IsCreate(e: Effect) {
    e.Create?
  }

  predicate IsRemove(e: Effect) {
    e.Remove?
  }

  lemma {:induction false} ContainersBalance(t: seq<Effect>)
    requires PortAfter(Unused, t) != Clash
    ensures Count(IsCreate, t) == Count(IsRemove, t) + (if PortAfter(Unused, t).Used? then 1 else 0)
  {
    if t != [] {
      ContainersBalance(t[..|t| - 1]);
    }
  }

  /** In a trace without a clash at most one container is live after every prefix. */
  lemma {:induction false} AtMostOneLive(t: seq<Effect>, k: nat)
    requires PortAfter(Unused, t) != Clash && k <= |t|
    ensures Count(IsRemove, t[..k]) <= Count(IsCreate, t[..k]) <= Count(IsRemove, t[..k]) + 1
  {
    if k == |t| {
      assert t[..k] == t;
      ContainersBalance(t);
    } else {
      AtMostOneLive(t[..|t| - 1], k);
      assert t[..|t| - 1][..k] == t[..k];
    }
  }

  function SavedBy(e: Effect): seq<RunResult> {
    if e.Save? then [e.result] else []
  }

  function Saved(t: seq<Effect>): seq<RunResult> {
    FlatMap(SavedBy, t)
  }

  // ---------------------------------------------------------------------------------------------------------------
  // The run
  // ---------------------------------------------------------------------------------------------------------------

  function Started(runId: string, sub: Submission): RunResult {
    RunResult(runId, sub.id, sub.contestantId, RUNNING, 0, 0.0, 0, 0, 0, 0.0, "")
  }

  function WithStats(r: RunResult, stats: LocalStats): RunResult {
    r.(status := COMPLETED, totalOrders := stats.count, correctRatio := stats.correctRatio, p50Us := stats.p50Us,
       p90Us := stats.p90Us, p99Us := stats.p99Us, score := stats.score)
  }

  /** r is what is saved of a completed run: its stats tell of these metrics and no others, and there is no error. */
  ghost predicate CompletedWith(r: RunResult, metrics: seq<Metric>) {
    && r.status == COMPLETED && r.error == ""
    && Reports(LocalStats(r.totalOrders, r.correctRatio, r.p50Us, r.p90Us, r.p99Us, r.score), metrics)
  }

  /** r is what is saved of a failed run: the error says where it failed and with what message. */
  ghost predicate FailedWith(r: RunResult, where: string, message: string) {
    && r.status == FAILED && r.error == where + ": " + message
    && r.totalOrders == 0 && r.correctRatio == 0.0 && r.p50Us == r.p90Us == r.p99Us == 0 && r.score == 0.0
  }

  /** Nothing has been measured and nothing gone wrong yet. */
  predicate Blank(r: RunResult) {
    r.totalOrders == 0 && r.correctRatio == 0.0 && r.p50Us == r.p90Us == r.p99Us == 0 && r.score == 0.0 && r.error == ""
  }

  predicate SameRun(a: RunResult, b: RunResult) {
    a.runId == b.runId && a.submissionId == b.submissionId && a.contestantId == b.contestantId
  }

  /** How a run has to end, given what the outside world does to it: at the first thing that goes wrong, if any does. */
  ghost predicate EndsAsDue(r: RunResult, memory: string, sub: Submission, w: World) {
    if w.network.Fail? then FailedWith(r, "ensure network", w.network.message)
    else if Sizes.Parsed(memory).Err? then
      FailedWith(r, "parse memory", Sizes.Message(Sizes.Parsed(memory).error))
    else EndsAsContainer(r, sub.imageTag, w)
  }

  ghost predicate EndsAsContainer(r: RunResult, image: string, w: World) {
    if image == "" then FailedWith(r, "start sandbox", "image is required")
    else if w.create.Fail? then FailedWith(r, "start sandbox", w.create.message)
    else if w.start.Fail? then FailedWith(r, "start sandbox", w.start.message)
    else EndsAsExercised(r, w)
  }

  ghost predicate EndsAsExercised(r: RunResult, w: World) {
    if w.ready.Fail? then FailedWith(r, "sandbox not ready", w.ready.message)
    else if w.validation.Fail? then FailedWith(r, "engine validation failed", w.validation.message)
    else if w.fleet.Fail? && !w.deadlinePassed then FailedWith(r, "bot fleet", w.fleet.message)
    else CompletedWith(r, w.metrics[..Min(|w.metrics|, 500000)])
  }

  class Judge {
    const memory: string
    var trace: seq<Effect>
    var nextId: nat

    constructor (memory: string)
      ensures trace == [] && this.memory == memory
    {
      this.memory, trace, nextId := memory, [], 0;
    }

    method Perform(e: Effect)
      modifies this`trace
      ensures trace == old(trace) + [e]
    {
      trace := trace + [e];
    }

    /** Marks the run failed, with a message that is never empty, and saves it. */
    method FailRun(r: RunResult, prefix: string, message: string) returns (result: RunResult)
      requires prefix != ""
      modifies this`trace
      ensures result == r.(status := FAILED, error := prefix + ": " + message)
      ensures trace == old(trace) + [Save(result)]
    {
      result := r.(status := FAILED, error := prefix + ": " + message);
      Perform(Save(result));
    }

    /** Creates and starts a container; one that does not start is removed again. */
    method RunSandbox(image: string, w: World) returns (outcome: Outcome, id: nat)
      modifies this
      ensures outcome == if image == "" then Fail("image is required") else if w.create.Fail? then w.create else w.start
      ensures id == old(nextId) && nextId == old(nextId) + if image != "" && w.create.Pass? then 1 else 0
      ensures trace == old(trace) +
        (if outcome.Pass? then [Create(id), Start(id)]
         else if image != "" && w.create.Pass? then [Create(id), Remove(id)] else [])
    {
      id := nextId;
      if image == "" {
        return Fail("image is required"), id;
      }
      if w.create.Fail? {
        return w.create, id;
      }
      Perform(Create(id));
      nextId := nextId + 1;
      if w.start.Fail? {
        Perform(Remove(id));
        return w.start, id;
      }
      Perform(Start(id));
      return Pass, id;
    }

    /** The part of Run between the container's start and its deferred removal. */
    method Exercise(started: RunResult, w: World) returns (result: RunResult)
      requires Blank(started)
      modifies this`trace
      ensures trace == old(trace) + [Save(result)]
      ensures EndsAsExercised(result, w) && SameRun(result, started)
    {
      hide Reports;
      if w.ready.Fail? {
        result := FailRun(started, "sandbox not ready", w.ready.message);
        return;
      }
      if w.validation.Fail? {
        result := FailRun(started, "engine validation failed", w.validation.message);
        return;
      }
      var stats := FleetStats(w.metrics);
      if w.fleet.Fail? && !w.deadlinePassed {
        result := FailRun(started, "bot fleet", w.fleet.message);
        return;
      }
      result := WithStats(started, stats);
      Perform(Save(result));
    }

    /** The part of Run from the container on. Its effects t are returned for the reader of the contract. */
    method RunContainer(started: RunResult, image: string, w: World)
        returns (result: RunResult, ghost t: seq<Effect>)
      requires Blank(started)
      modifies this
      ensures trace == old(trace) + t && PortAfter(Unused, t) == Unused && Saved(t) == [result]
      ensures EndsAsContainer(result, image, w) && SameRun(result, started)
      ensures t == ContainerEffects(old(nextId), result, image, w)
    {
      hide PortAfter, Saved, Reports;
      var outcome, id := RunSandbox(image, w);
      if outcome.Fail? {
        result := FailRun(started, "start sandbox", outcome.message);
        if image != "" && w.create.Pass? {
          t := [Create(id), Remove(id), Save(result)];
          SavedAfterRemoval(result, id);
        } else {
          t := [Save(result)];
          SavedAtOnce(result);
        }
        return;
      }
      result := Exercise(started, w);
      Perform(Stop(id));
      Perform(Remove(id));
      t := [Create(id), Start(id), Save(result), Stop(id), Remove(id)];
      SavedBeforeRemoval(result, id);
    }

    /** A full judge cycle, begun at nowNs. */
    method Run(sub: Submission, w: World, nowNs: nat) returns (result: RunResult, ghost t: seq<Effect>)
      modifies this
      ensures trace == old(trace) + t && PortAfter(Unused, t) == Unused
      ensures |Saved(t)| == 2 && Saved(t)[1] == result
      ensures Saved(t)[0].status == RUNNING && Blank(Saved(t)[0]) && SameRun(Saved(t)[0], result)
      ensures result.runId == "run-" + sub.id + "-" + Decimal.Print(nowNs)
      ensures result.submissionId == sub.id && result.contestantId == sub.contestantId
      ensures EndsAsDue(result, memory, sub, w)
      ensures w.network.Pass? && Sizes.Parsed(memory).Ok? ==>
                t == [Save(Saved(t)[0])] + ContainerEffects(old(nextId), result, sub.imageTag, w)
    {
      hide PortAfter, Saved, Sizes.Parsed, Sizes.Means, Reports;
      var started := Started("run-" + sub.id + "-" + Decimal.Print(nowNs), sub);
      Perform(Save(started));
      if w.network.Fail? {
        result := FailRun(started, "ensure network", w.network.message);
        t := [Save(result)];
        SavedAtOnce(result);
      } else {
        var memBytes := Sizes.ParseBytes(memory);
        if memBytes.Err? {
          result := FailRun(started, "parse memory", Sizes.Message(memBytes.error));
          t := [Save(result)];
          SavedAtOnce(result);
        } else {
          result, t := RunContainer(started, sub.imageTag, w);
        }
      }
      SavedFirst(started, t);
      t := [Save(started)] + t;
    }
  }

  /** A container that starts is stopped and removed after the result is saved; one that does not is removed before. */
  function ContainerEffects(id: nat, result: RunResult, image: string, w: World): seq<Effect> {
    if image == "" || w.create.Fail? then [Save(result)]
    else if w.start.Fail? then [Create(id), Remove(id), Save(result)]
    else [Create(id), Start(id), Save(result), Stop(id), Remove(id)]
  }

  /** What the drained ring reports after a fleet whose metrics came in this order. */
  method FleetStats(metrics: seq<Metric>) returns (stats: LocalStats)
    ensures Reports(stats, metrics[..Min(|metrics|, 500000)])
  {
    hide Reports, Summary, Held;
    var rb := new RingBuffer(RING_SIZE);
    for i := 0 to |metrics|
      invariant rb.Valid() && rb.size == RING_SIZE && fresh(rb) && fresh(rb.buf)
      invariant rb.Contents() == metrics[..Min(i, RING_SIZE)]
    {
      var ok := rb.Push(metrics[i]);
    }
    stats := DrainRingBuffer(rb);
  }

  lemma SavedFirst(started: RunResult, t: seq<Effect>)
    ensures PortAfter(Unused, [Save(started)] + t) == PortAfter(Unused, t)
    ensures Saved([Save(started)] + t) == [started] + Saved(t)
  {
    FollowSnoc(Unused, [], Save(started));
    assert [] + [Save(started)] == [Save(started)];
    PortAfterConcat(Unused, [Save(started)], t);
    FlatMapConcat(SavedBy, [Save(started)], t);
  }

  lemma SavedAtOnce(result: RunResult)
    ensures var t := [Save(result)]; PortAfter(Unused, t) == Unused && Saved(t) == [result]
  {
    hide PortAfter, Saved;
    FollowSnoc(Unused, [], Save(result));
    assert [] + [Save(result)] == [Save(result)];
  }

  lemma SavedAfterRemoval(result: RunResult, id: nat)
    ensures var t := [Create(id), Remove(id), Save(result)]; PortAfter(Unused, t) == Unused && Saved(t) == [result]
  {
    hide PortAfter, Saved;
    var a, b, c := Create(id), Remove(id), Save(result);
    FollowSnoc(Unused, [], a);
    FollowSnoc(Unused, [a], b);
    FollowSnoc(Unused, [a, b], c);
    assert [] + [a] == [a] && [a] + [b] == [a, b] && [a, b] + [c] == [a, b, c];
  }

  lemma SavedBeforeRemoval(result: RunResult, id: nat)
    ensures var t := [Create(id), Start(id), Save(result), Stop(id), Remove(id)];
      PortAfter(Unused, t) == Unused && Saved(t) == [result]
  {
    hide PortAfter, Saved;
    var a, b, c, d, e := Create(id), Start(id), Save(result), Stop(id), Remove(id);
    FollowSnoc(Unused, [], a);
    FollowSnoc(Unused, [a], b);
    FollowSnoc(Unused, [a, b], c);
    FollowSnoc(Unused, [a, b, c], d);
    FollowSnoc(Unused, [a, b, c, d], e);
    assert [] + [a] == [a] && [a] + [b] == [a, b] && [a, b] + [c] == [a, b, c];
    assert [a, b, c] + [d] == [a, b, c, d] && [a, b, c, d] + [e] == [a, b, c, d, e];
  }

  /** One more effect, and the empty trace. */
  lemma FollowSnoc(p: Port, t: seq<Effect>, e: Effect)
    ensures PortAfter(p, t + [e]) == Observe(PortAfter(p, t), e)
    ensures Saved(t + [e]) == Saved(t) + SavedBy(e)
    ensures PortAfter(p, []) == p && Saved([]) == []
  {
    SnocPrefix(t, e);
  }

  // ---------------------------------------------------------------------------------------------------------------
  // The worker
  // ---------------------------------------------------------------------------------------------------------------

  /** Runs submissions one after another: no container survives a run, so they can all use the same host port. */
  method JudgeAll(judge: Judge, subs: seq<Submission>, worlds: seq<World>, clocks: seq<nat>)
      returns (results: seq<RunResult>)
    requires |worlds| == |clocks| == |subs| && PortAfter(Unused, judge.trace) == Unused
    modifies judge
    ensures PortAfter(Unused, judge.trace) == Unused
    ensures Count(IsCreate, judge.trace) == Count(IsRemove, judge.trace)
    ensures |results| == |subs|
    ensures forall i :: 0 <= i < |subs| ==>
              results[i].submissionId == subs[i].id && EndsAsDue(results[i], judge.memory, subs[i], worlds[i])
    ensures |Saved(judge.trace)| == |Saved(old(judge.trace))| + 2 * |subs|
    ensures forall i :: 0 <= i < |subs| ==> Saved(judge.trace)[|Saved(old(judge.trace))| + 2 * i + 1] == results[i]
  {
    hide PortAfter, Saved, EndsAsDue;
    results := [];
    ghost var n := |Saved(judge.trace)|;
    for i := 0 to |subs|
      invariant PortAfter(Unused, judge.trace) == Unused && |results| == i
      invariant forall k :: 0 <= k < i ==>
                  results[k].submissionId == subs[k].id && EndsAsDue(results[k], judge.memory, subs[k], worlds[k])
      invariant |Saved(judge.trace)| == n + 2 * i
      invariant forall k :: 0 <= k < i ==> Saved(judge.trace)[n + 2 * k + 1] == results[k]
    {
      ghost var before := judge.trace;
      var result, t := judge.Run(subs[i], worlds[i], clocks[i]);
      PortAfterConcat(Unused, before, t);
      SavedConcat(before, t);
      results := results + [result];
    }
    ContainersBalance(judge.trace);
  }

  lemma SavedConcat(a: seq<Effect>, b: seq<Effect>)
    ensures Saved(a + b) == Saved(a) + Saved(b)
  {
    FlatMapConcat(SavedBy, a, b);
  }
}
