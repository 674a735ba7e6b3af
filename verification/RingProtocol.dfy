/**
 * The multi-producer / single-consumer protocol of the ring buffer, one atomic operation, slot store or slot copy per
 * step, sequentially consistent, with any number of producers.
 *
 * called, accepted, owners, stored, rejected and popped are history: the program does not read them. accepted[t] is
 * the metric whose compare-and-swap won ticket t and owners[t] the producer that won it; stored[k] is the ticket last
 * stored into slot k, and one lap below the slot's first ticket before that.
 */
module RingProtocol {
  import opened Sequences
  import opened Telemetry

  const TWO_TO_THE_64 := 0x1_0000_0000_0000_0000

  /** Subtraction of uint64 cursors: it wraps when the minuend is stale. */
  function WrappingSub(a: nat, b: nat): nat {
    (a - b) % TWO_TO_THE_64
  }

  datatype Producer =
    | Idle
    | Pushing(m: Metric)                                 // at the head of the retry loop
    | HasWrite(m: Metric, w: nat)                        // loaded write
    | HasBoth(m: Metric, w: nat, rd: nat, full: bool)    // loaded read; full is history: was the ring full just then?
    | Storing(m: Metric, ticket: nat)                    // won the ticket, slot not yet written

  datatype Consumer =
    | Resting
    | HasRead(capacity: nat, rd: nat)                    // loaded read
    | Copying(rd: nat, n: nat, dst: seq<Metric>)         // loaded write; |dst| of n slots copied

  datatype Ring = Ring(
    size: nat,
    write: nat,
    read: nat,
    buf: seq<Metric>,
    producers: seq<Producer>,
    consumer: Consumer,
    called: seq<Metric>,
    accepted: seq<Metric>,
    owners: seq<nat>,
    stored: seq<int>,
    rejected: seq<Metric>,
    popped: seq<Metric>)

  function Init(size: nat, producerCount: nat): Ring {
    var n := if size == 0 then 1 else size;
    Ring(n, 0, 0, seq(n, _ => ZERO_METRIC), seq(producerCount, _ => Idle), Resting,
      [], [], [], seq(n, k => k - n), [], [])
  }

  datatype Step =
    | Call(p: nat, m: Metric)
    | LoadWrite(p: nat)
    | LoadRead(p: nat)
    | Reject(p: nat)
    | CompareAndSwap(p: nat)
    | Store(p: nat)
    | PopLoadRead(capacity: nat)
    | PopLoadWrite
    | PopCopy
    | PopStoreRead

  predicate LooksFull(s: Ring, w: nat, rd: nat) {
    WrappingSub(w, rd) >= s.size
  }

  predicate Enabled(s: Ring, step: Step) {
    match step
    case Call(p, _) => p < |s.producers| && s.producers[p].Idle?
    case LoadWrite(p) => p < |s.producers| && s.producers[p].Pushing?
    case LoadRead(p) => p < |s.producers| && s.producers[p].HasWrite?
    case Reject(p) =>
      p < |s.producers| && s.producers[p].HasBoth? && LooksFull(s, s.producers[p].w, s.producers[p].rd)
    case CompareAndSwap(p) =>
      p < |s.producers| && s.producers[p].HasBoth? && !LooksFull(s, s.producers[p].w, s.producers[p].rd)
    case Store(p) => p < |s.producers| && s.producers[p].Storing? && |s.stored| == |s.buf| == s.size > 0
    case PopLoadRead(_) => s.consumer.Resting?
    case PopLoadWrite => s.consumer.HasRead?
    case PopCopy => s.consumer.Copying? && |s.consumer.dst| < s.consumer.n && |s.buf| == s.size > 0
    case PopStoreRead => s.consumer.Copying? && |s.consumer.dst| == s.consumer.n
  }

  function SetProducer(s: Ring, p: nat, to: Producer): Ring
    requires p < |s.producers|
  {
    s.(producers := s.producers[p := to])
  }

  function Next(s: Ring, step: Step): Ring
    requires Enabled(s, step)
  {
    match step
    case Call(p, m) => SetProducer(s, p, Pushing(m)).(called := s.called + [m])
    case LoadWrite(p) => SetProducer(s, p, HasWrite(s.producers[p].m, s.write))
    case LoadRead(p) =>
      SetProducer(s, p, HasBoth(s.producers[p].m, s.producers[p].w, s.read, s.write == s.read + s.size))
    case Reject(p) => SetProducer(s, p, Idle).(rejected := s.rejected + [s.producers[p].m])
    case CompareAndSwap(p) =>
      var m, w := s.producers[p].m, s.producers[p].w;
      if s.write == w then
        SetProducer(s, p, Storing(m, w)).(write := w + 1, accepted := s.accepted + [m], owners := s.owners + [p])
      else
        SetProducer(s, p, Pushing(m))
    case Store(p) =>
      var m, t := s.producers[p].m, s.producers[p].ticket;
      SetProducer(s, p, Idle).(buf := s.buf[t % s.size := m], stored := s.stored[t % s.size := t])
    case PopLoadRead(capacity) => s.(consumer := HasRead(capacity, s.read))
    case PopLoadWrite =>
      if s.write <= s.consumer.rd then s.(consumer := Resting)
      else s.(consumer := Copying(s.consumer.rd, Min(s.consumer.capacity, s.write - s.consumer.rd), []))
    case PopCopy =>
      var c := s.consumer;
      s.(consumer := c.(dst := c.dst + [s.buf[(c.rd + |c.dst|) % s.size]]))
    case PopStoreRead =>
      s.(consumer := Resting, read := s.consumer.rd + s.consumer.n, popped := s.popped + s.consumer.dst)
  }

  ghost predicate Legal(s: Ring, steps: seq<Step>)
    decreases |steps|
  {
    steps == [] || (Enabled(s, steps[0]) && Legal(Next(s, steps[0]), steps[1..]))
  }

  ghost function After(s: Ring, steps: seq<Step>): Ring
    requires Legal(s, steps)
    decreases |steps|
  {
    if steps == [] then s else After(Next(s, steps[0]), steps[1..])
  }

  // ---------------------------------------------------------------------------------------------------------------
  // Safety, whatever the schedule
  // ---------------------------------------------------------------------------------------------------------------

  ghost predicate Bounded(s: Ring) {
    && 0 < s.size < TWO_TO_THE_64 && |s.buf| == |s.stored| == s.size
    && s.read <= s.write <= s.read + s.size
    && |s.accepted| == |s.owners| == s.write
    && |s.popped| == s.read
  }

  ghost predicate ConsumerOk(s: Ring) {
    match s.consumer
    case Resting => true
    case HasRead(_, rd) => rd == s.read
    case Copying(rd, n, dst) => rd == s.read && |dst| <= n && rd + n <= s.write
  }

  /** No ticket from w on was won by p: p has not advanced write since it loaded it. */
  ghost predicate NotOwnedFrom(s: Ring, p: nat, w: nat) {
    forall t :: w <= t < |s.owners| ==> s.owners[t] != p
  }

  ghost predicate ProducerOk(s: Ring, p: nat)
    requires p < |s.producers|
  {
    match s.producers[p]
    case Idle => true
    case Pushing(_) => true
    case HasWrite(_, w) => w <= s.write && w <= s.read + s.size && NotOwnedFrom(s, p, w)
    case HasBoth(_, w, rd, full) =>
      w <= s.write && rd <= s.read && w <= rd + s.size && (w == rd + s.size ==> full) && NotOwnedFrom(s, p, w)
    case Storing(m, t) => t < |s.accepted| == |s.owners| && s.accepted[t] == m && s.owners[t] == p
  }

  ghost predicate Safe(s: Ring) {
    && Bounded(s) && ConsumerOk(s)
    && forall p :: 0 <= p < |s.producers| ==> ProducerOk(s, p)
  }

  lemma InitSafe(size: nat, producerCount: nat)
    requires size < TWO_TO_THE_64
    ensures Safe(Init(size, producerCount))
  {
  }

  /** With both loads taken in program order, a pair that passes the wrapped test is either honest or too old to win. */
  lemma TestIsHonest(s: Ring, p: nat)
    requires Safe(s) && p < |s.producers| && s.producers[p].HasBoth?
    ensures var w, rd := s.producers[p].w, s.producers[p].rd;
      && (w >= rd ==> (LooksFull(s, w, rd) <==> w == rd + s.size))
      && (w < rd ==> w < s.write)
  {
    assert ProducerOk(s, p);
  }

  lemma SwapIsSafe(s: Ring, p: nat)
    requires Safe(s) && Enabled(s, CompareAndSwap(p))
    ensures Safe(Next(s, CompareAndSwap(p)))
  {
    var s' := Next(s, CompareAndSwap(p));
    TestIsHonest(s, p);
    assert ProducerOk(s, p);
    forall q | 0 <= q < |s'.producers|
      ensures ProducerOk(s', q)
    {
      assert ProducerOk(s, q);
    }
  }

  lemma ConsumerIsSafe(s: Ring, step: Step)
    requires Safe(s) && Enabled(s, step)
    requires step.PopLoadRead? || step.PopLoadWrite? || step.PopCopy? || step.PopStoreRead?
    ensures Safe(Next(s, step))
  {
    var s' := Next(s, step);
    forall q | 0 <= q < |s'.producers|
      ensures ProducerOk(s', q)
    {
      assert ProducerOk(s, q);
    }
  }

  lemma SafeStep(s: Ring, step: Step)
    requires Safe(s) && Enabled(s, step)
    ensures Safe(Next(s, step))
  {
    if step.CompareAndSwap? {
      SwapIsSafe(s, step.p);
    } else if step.PopLoadRead? || step.PopLoadWrite? || step.PopCopy? || step.PopStoreRead? {
      ConsumerIsSafe(s, step);
    } else {
      var s' := Next(s, step);
      forall q | 0 <= q < |s'.producers|
        ensures ProducerOk(s', q)
      {
        assert ProducerOk(s, q);
      }
    }
  }

  /** read <= write <= read + size, and exactly write pushes have won a ticket, on every schedule of every fleet. */
  lemma {:induction false} SafeAlways(s: Ring, steps: seq<Step>)
    requires Safe(s) && Legal(s, steps)
    ensures Safe(After(s, steps))
    decreases |steps|
  {
    if steps != [] {
      SafeStep(s, steps[0]);
      SafeAlways(Next(s, steps[0]), steps[1..]);
    }
  }

  /** A step inside Push moves its own producer, which is not idle, and leaves the consumer's side alone. */
  lemma PushStepFrame(s: Ring, step: Step)
    requires Enabled(s, step)
    requires step.LoadWrite? || step.LoadRead? || step.Reject? || step.CompareAndSwap? || step.Store?
    ensures step.p < |s.producers| && !s.producers[step.p].Idle?
    ensures var s' := Next(s, step);
      && s'.called == s.called && s'.read == s.read && s'.consumer == s.consumer
      && |s'.producers| == |s.producers| && s'.producers == s.producers[step.p := s'.producers[step.p]]
  {
  }

  lemma ConsumerStepFrame(s: Ring, step: Step)
    requires Enabled(s, step) && (step.PopLoadRead? || step.PopLoadWrite? || step.PopCopy? || step.PopStoreRead?)
    ensures var s' := Next(s, step);
      s'.called == s.called && s'.accepted == s.accepted && s'.producers == s.producers
  {
  }

  /** A failed compare-and-swap is someone else's progress: another producer has won ticket w since w was loaded. */
  lemma FailedSwapMeansProgress(s: Ring, p: nat)
    requires Safe(s) && Enabled(s, CompareAndSwap(p)) && s.write != s.producers[p].w
    ensures Next(s, CompareAndSwap(p)).producers[p] == Pushing(s.producers[p].m)
    ensures s.producers[p].w < |s.owners| && s.owners[s.producers[p].w] != p
  {
    assert ProducerOk(s, p);
  }

  /**
   * A push is turned away exactly if the ring was full when read was loaded, or if write had gone stale below read so
   * that the difference wrapped.
   */
  lemma RejectionMeansFullOrStale(s: Ring, p: nat)
    requires Safe(s) && p < |s.producers| && s.producers[p].HasBoth?
    requires s.producers[p].rd - s.producers[p].w < 0x1_0000_0000_0000_0000
    ensures var w, rd := s.producers[p].w, s.producers[p].rd;
      && (Enabled(s, Reject(p)) <==> w == rd + s.size || 0 < rd - w <= 0x1_0000_0000_0000_0000 - s.size)
      && (w == rd + s.size ==> s.producers[p].full)
  {
    assert ProducerOk(s, p);
    TestIsHonest(s, p);
  }

  /** Two producers that hold tickets hold different ones. */
  lemma TicketsDistinct(s: Ring, p: nat, q: nat)
    requires Safe(s) && p < q < |s.producers| && s.producers[p].Storing? && s.producers[q].Storing?
    ensures s.producers[p].ticket != s.producers[q].ticket
  {
    assert ProducerOk(s, p) && ProducerOk(s, q);
  }

  // ---------------------------------------------------------------------------------------------------------------
  // Delivery: which metric a copy hands over, whatever the schedule
  // ---------------------------------------------------------------------------------------------------------------

  /** The metric of ticket t. Tickets before the first stand for a slot nobody has stored into. */
  function MetricOfTicket(s: Ring, t: int): Metric {
    if 0 <= t < |s.accepted| then s.accepted[t] else ZERO_METRIC
  }

  /** Every slot holds the metric of the ticket last stored into it. */
  ghost predicate SlotsHoldStores(s: Ring)
    requires Bounded(s)
  {
    forall k :: 0 <= k < s.size ==>
      && s.stored[k] < s.write && s.stored[k] % s.size == k
      && s.buf[k] == MetricOfTicket(s, s.stored[k])
  }

  /** What the consumer has copied out so far. */
  function Taken(s: Ring): seq<Metric> {
    if s.consumer.Copying? then s.popped + s.consumer.dst else s.popped
  }

  /** The ticket due next at the consumer. */
  function NextTicket(s: Ring): nat {
    if s.consumer.Copying? then s.consumer.rd + |s.consumer.dst| else s.read
  }

  /** What has been copied out is what was accepted, in ticket order. */
  ghost predicate Delivered(s: Ring) {
    Taken(s) <= s.accepted
  }

  /** The ticket whose metric the next copy takes. */
  function Source(s: Ring): int
    requires Bounded(s)
  {
    s.stored[NextTicket(s) % s.size]
  }

  lemma InitHoldsStores(size: nat, producerCount: nat)
    requires size < TWO_TO_THE_64
    ensures Bounded(Init(size, producerCount)) && SlotsHoldStores(Init(size, producerCount))
  {
    var s := Init(size, producerCount);
    forall k | 0 <= k < s.size
      ensures s.stored[k] == k - s.size && s.stored[k] % s.size == k
    {
      FirstLap(s.size, k);
    }
  }

  lemma SlotsHoldStoresStep(s: Ring, step: Step)
    requires Safe(s) && SlotsHoldStores(s) && Enabled(s, step)
    ensures Safe(Next(s, step)) && SlotsHoldStores(Next(s, step))
  {
    SafeStep(s, step);
    if step.Store? {
      assert ProducerOk(s, step.p);
    }
  }

  /** On every schedule a copy of ticket t takes the metric of t or of a ticket whole laps before it. */
  lemma CopyTakesSameSlot(s: Ring) returns (laps: nat)
    requires Safe(s) && SlotsHoldStores(s) && Enabled(s, PopCopy)
    ensures Taken(Next(s, PopCopy)) == Taken(s) + [MetricOfTicket(s, NextTicket(s) - s.size * laps)]
  {
    laps := SameSlotApart(s.size, NextTicket(s), Source(s));
  }

  lemma CopyDelivers(s: Ring)
    requires Safe(s) && Enabled(s, PopCopy)
    ensures NextTicket(s) < |s.accepted| && |Taken(s)| == NextTicket(s)
    ensures Delivered(Next(s, PopCopy)) <==>
            Delivered(s) && s.buf[NextTicket(s) % s.size] == s.accepted[NextTicket(s)]
  {
    var s' := Next(s, PopCopy);
    assert Taken(s') == Taken(s) + [s.buf[NextTicket(s) % s.size]];
    assert Taken(s) <= Taken(s');
  }

  /** What was taken or accepted stays so. */
  lemma TakenGrows(s: Ring, step: Step)
    requires Enabled(s, step)
    ensures Taken(s) <= Taken(Next(s, step)) && s.accepted <= Next(s, step).accepted && Next(s, step).size == s.size
    ensures !step.PopCopy? ==> Taken(Next(s, step)) == Taken(s)
  {
  }

  lemma PrefixesAgree<T>(a: seq<T>, b: seq<T>, c: seq<T>)
    requires |a| <= |b| && b <= c
    ensures a <= c <==> a <= b
  {
    assert c[..|a|] == b[..|a|];
  }

  /** A wrong delivery is never made good. */
  lemma {:induction false} WrongStaysWrong(s: Ring, steps: seq<Step>)
    requires Safe(s) && Legal(s, steps) && !Delivered(s)
    ensures !Delivered(After(s, steps))
    decreases |steps|
  {
    if steps != [] {
      hide Next, Enabled;
      var s' := Next(s, steps[0]);
      SafeStep(s, steps[0]);
      TakenGrows(s, steps[0]);
      TakenIsAccepted(s);
      PrefixesAgree(Taken(s), s.accepted, s'.accepted);
      assert Taken(s') <= s'.accepted ==> Taken(s) <= s'.accepted;
      WrongStaysWrong(s', steps[1..]);
    }
  }

  lemma TakenIsAccepted(s: Ring)
    requires Safe(s)
    ensures |Taken(s)| == NextTicket(s) <= |s.accepted|
  {
  }

  ghost predicate CopiesSoundly(s: Ring, step: Step)
    requires Bounded(s)
  {
    step.PopCopy? ==>
      Source(s) == NextTicket(s) || MetricOfTicket(s, Source(s)) == MetricOfTicket(s, NextTicket(s))
  }

  /** Every copy of the run takes its own ticket's metric, or one that does not differ from it. */
  ghost predicate SoundRun(s: Ring, steps: seq<Step>)
    requires Safe(s) && SlotsHoldStores(s) && Legal(s, steps)
    decreases |steps|
  {
    steps == [] ||
    (SlotsHoldStoresStep(s, steps[0]); CopiesSoundly(s, steps[0]) && SoundRun(Next(s, steps[0]), steps[1..]))
  }

  /** For every schedule: the metrics copied out are those accepted, in order, exactly if every copy was sound. */
  lemma {:induction false} DeliveredExactlyIfSound(s: Ring, steps: seq<Step>)
    requires Safe(s) && SlotsHoldStores(s) && Delivered(s) && Legal(s, steps)
    ensures Delivered(After(s, steps)) <==> SoundRun(s, steps)
    decreases |steps|
  {
    if steps != [] {
      var s' := Next(s, steps[0]);
      SlotsHoldStoresStep(s, steps[0]);
      TakenGrows(s, steps[0]);
      if steps[0].PopCopy? {
        CopyDelivers(s);
      }
      if Delivered(s') {
        DeliveredExactlyIfSound(s', steps[1..]);
      } else {
        WrongStaysWrong(s', steps[1..]);
      }
    }
  }

  // ---------------------------------------------------------------------------------------------------------------
  // Delivery: it fails at the first unwritten ticket that is copied
  // ---------------------------------------------------------------------------------------------------------------

  ghost predicate Unwritten(s: Ring, t: nat)
    requires t < |s.owners|
  {
    var p := s.owners[t];
    p < |s.producers| && s.producers[p].Storing? && s.producers[p].ticket == t
  }

  ghost predicate Written(s: Ring, t: nat) {
    t < |s.owners| && !Unwritten(s, t)
  }

  /** No ticket below position limit has been won and not yet written. */
  ghost predicate WrittenBelow(s: Ring, limit: nat) {
    forall p :: 0 <= p < |s.producers| && s.producers[p].Storing? ==> s.producers[p].ticket >= limit
  }

  /** From read on for one lap: a written ticket is in its slot, and the slot of any other is one lap behind. */
  ghost predicate Window(s: Ring)
    requires Bounded(s)
  {
    forall t :: s.read <= t < s.read + s.size ==> s.stored[t % s.size] == if Written(s, t) then t else t - s.size
  }

  /** Nothing unwritten has been copied so far: all is delivered, and every slot is as it should be. */
  ghost predicate Intact(s: Ring)
    requires Safe(s)
  {
    SlotsHoldStores(s) && Window(s) && Delivered(s) && WrittenBelow(s, NextTicket(s))
  }

  lemma InitIntact(size: nat, producerCount: nat)
    requires size < TWO_TO_THE_64
    ensures Safe(Init(size, producerCount)) && Intact(Init(size, producerCount))
  {
    InitHoldsStores(size, producerCount);
    var s := Init(size, producerCount);
    forall t | s.read <= t < s.read + s.size
      ensures s.stored[t % s.size] == t - s.size
    {
      FirstLap(s.size, t);
    }
  }

  lemma StoreKeepsWindow(s: Ring, p: nat)
    requires Safe(s) && Intact(s) && Enabled(s, Store(p))
    ensures Safe(Next(s, Store(p))) && Window(Next(s, Store(p)))
  {
    SafeStep(s, Store(p));
    var s', ticket := Next(s, Store(p)), s.producers[p].ticket;
    assert ProducerOk(s, p);
    assert s.read <= ticket < s.write;
    forall t | s'.read <= t < s'.read + s'.size
      ensures s'.stored[t % s.size] == if Written(s', t) then t else t - s.size
    {
      if t < ticket {
        SlotsDistinct(s.size, t, ticket);
      } else if t > ticket {
        SlotsDistinct(s.size, ticket, t);
      }
      assert t != ticket ==> Written(s, t) == Written(s', t);
    }
  }

  lemma SwapKeepsWindow(s: Ring, p: nat)
    requires Safe(s) && Intact(s) && Enabled(s, CompareAndSwap(p))
    ensures Safe(Next(s, CompareAndSwap(p))) && Window(Next(s, CompareAndSwap(p)))
    ensures WrittenBelow(Next(s, CompareAndSwap(p)), NextTicket(s))
  {
    SafeStep(s, CompareAndSwap(p));
    var s' := Next(s, CompareAndSwap(p));
    forall t | s'.read <= t < s'.read + s'.size
      ensures Written(s', t) == Written(s, t)
    {
      assert t < s.write ==> Unwritten(s, t) == Unwritten(s', t);
      assert s'.write > s.write ==> Unwritten(s', s.write);
    }
  }

  /** When a pop ends, the window moves on to tickets nobody has won yet. */
  lemma PopEndKeepsWindow(s: Ring)
    requires Safe(s) && Intact(s) && Enabled(s, PopStoreRead)
    ensures Safe(Next(s, PopStoreRead)) && Window(Next(s, PopStoreRead))
  {
    SafeStep(s, PopStoreRead);
    var s' := Next(s, PopStoreRead);
    forall t | s'.read <= t < s'.read + s'.size
      ensures s'.stored[t % s.size] == if Written(s', t) then t else t - s.size
    {
      if t >= s.read + s.size {
        LapEarlierSameSlot(s.size, t);
        assert WasWritten(s, t - s.size);
      }
    }
  }

  ghost predicate WasWritten(s: Ring, t: nat) {
    Written(s, t)
  }

  lemma QuietKeepsWindow(s: Ring, step: Step)
    requires Safe(s) && Intact(s) && Enabled(s, step)
    requires !step.Store? && !step.CompareAndSwap? && !step.PopStoreRead?
    ensures Safe(Next(s, step)) && Window(Next(s, step))
  {
    SafeStep(s, step);
    var s' := Next(s, step);
    forall t | s'.read <= t < s'.read + s'.size
      ensures Written(s', t) == Written(s, t)
    {
    }
  }

  /** Ticket t has been written, or its metric equals the one a lap before. */
  ghost predicate Deliverable(s: Ring, t: nat) {
    Written(s, t) || MetricOfTicket(s, t - s.size) == MetricOfTicket(s, t)
  }

  /** The ticket a copy takes has been written. */
  ghost predicate CopiesWritten(s: Ring, step: Step) {
    step.PopCopy? ==> Written(s, NextTicket(s))
  }

  lemma WindowStep(s: Ring, step: Step)
    requires Safe(s) && Intact(s) && Enabled(s, step)
    ensures Safe(Next(s, step)) && Window(Next(s, step))
  {
    match step
    case Store(p) => StoreKeepsWindow(s, p);
    case CompareAndSwap(p) => SwapKeepsWindow(s, p);
    case PopStoreRead => PopEndKeepsWindow(s);
    case _ => QuietKeepsWindow(s, step);
  }

  lemma WrittenBelowStep(s: Ring, step: Step)
    requires Safe(s) && WrittenBelow(s, NextTicket(s)) && Enabled(s, step) && CopiesWritten(s, step)
    ensures WrittenBelow(Next(s, step), NextTicket(Next(s, step)))
  {
    var s' := Next(s, step);
    forall p | 0 <= p < |s'.producers| && s'.producers[p].Storing?
      ensures s'.producers[p].ticket >= NextTicket(s')
    {
      assert ProducerOk(s, p);
    }
  }

  /**
   * Whatever the producers do meanwhile, a copy of ticket t hands over its metric exactly if the ticket has been
   * written or its metric equals that of the ticket one lap before, which its slot still holds.
   */
  lemma CopyIsExact(s: Ring)
    requires Safe(s) && Intact(s) && Enabled(s, PopCopy)
    ensures var t := NextTicket(s);
      && Source(s) == (if Written(s, t) then t else t - s.size)
      && (Delivered(Next(s, PopCopy)) <==> Deliverable(s, t))
  {
    CopyDelivers(s);
  }

  lemma IntactStep(s: Ring, step: Step)
    requires Safe(s) && Intact(s) && Enabled(s, step) && CopiesWritten(s, step)
    ensures Safe(Next(s, step)) && Intact(Next(s, step))
  {
    hide Next, Enabled, Window, Written, WrittenBelow;
    WindowStep(s, step);
    SlotsHoldStoresStep(s, step);
    WrittenBelowStep(s, step);
    TakenGrows(s, step);
    if step.PopCopy? {
      CopyIsExact(s);
    }
  }

  /** Every copy of the run takes a ticket that has been written. */
  ghost predicate WrittenRun(s: Ring, steps: seq<Step>)
    requires Legal(s, steps)
    decreases |steps|
  {
    steps == [] || (CopiesWritten(s, steps[0]) && WrittenRun(Next(s, steps[0]), steps[1..]))
  }

  lemma {:induction false} WrittenRunDelivers(s: Ring, steps: seq<Step>)
    requires Safe(s) && Intact(s) && Legal(s, steps) && WrittenRun(s, steps)
    ensures Safe(After(s, steps)) && Intact(After(s, steps))
    decreases |steps|
  {
    if steps != [] {
      IntactStep(s, steps[0]);
      WrittenRunDelivers(Next(s, steps[0]), steps[1..]);
    }
  }

  /** Every accepted metric differs from the one accepted a lap before it, the first ones from the empty metric. */
  ghost predicate LapsDiffer(s: Ring) {
    forall t :: 0 <= t < |s.accepted| ==> s.accepted[t] != MetricOfTicket(s, t - s.size)
  }

  /** Metrics of different orders, none of them empty, differ from lap to lap. */
  lemma DistinctLapsDiffer(s: Ring)
    requires s.size > 0 && NoDuplicates(s.accepted) && ZERO_METRIC !in s.accepted
    ensures LapsDiffer(s)
  {
  }

  lemma LapsDifferEarlier(s: Ring, s': Ring)
    requires s.size == s'.size && s.accepted <= s'.accepted && LapsDiffer(s')
    ensures LapsDiffer(s)
  {
    forall t | 0 <= t < |s.accepted|
      ensures s.accepted[t] != MetricOfTicket(s, t - s.size)
    {
      assert s'.accepted[t] == s.accepted[t] && MetricOfTicket(s', t - s.size) == MetricOfTicket(s, t - s.size);
    }
  }

  lemma {:induction false} LapsDifferBefore(s: Ring, steps: seq<Step>)
    requires Legal(s, steps) && LapsDiffer(After(s, steps))
    ensures LapsDiffer(s)
    decreases |steps|
  {
    if steps != [] {
      LapsDifferBefore(Next(s, steps[0]), steps[1..]);
      TakenGrows(s, steps[0]);
      hide LapsDiffer;
      LapsDifferEarlier(s, Next(s, steps[0]));
    }
  }

  /**
   * For every schedule of a ring whose metrics differ from lap to lap, as orders with ids of their own do: the metrics
   * copied out are those accepted, in order, exactly if no copy took a ticket that was won but not yet written.
   */
  lemma {:induction false} DeliveredExactlyIfWritten(s: Ring, steps: seq<Step>)
    requires Safe(s) && Intact(s) && Legal(s, steps) && LapsDiffer(After(s, steps))
    ensures Delivered(After(s, steps)) <==> WrittenRun(s, steps)
    decreases |steps|
  {
    if steps != [] {
      hide Next, Enabled, Window, Written;
      var s' := Next(s, steps[0]);
      LapsDifferBefore(s, steps);
      SafeStep(s, steps[0]);
      if CopiesWritten(s, steps[0]) {
        IntactStep(s, steps[0]);
        DeliveredExactlyIfWritten(s', steps[1..]);
      } else {
        CopyIsExact(s);
        CopyDelivers(s);
        WrongStaysWrong(s', steps[1..]);
      }
    }
  }

  // ---------------------------------------------------------------------------------------------------------------
  // Delivery: a premise on the load of write alone
  // ---------------------------------------------------------------------------------------------------------------

  /** When PopInto loads write, the tickets it is about to copy have been written. */
  ghost predicate Orderly(s: Ring, step: Step) {
    (step.PopLoadWrite? && s.consumer.HasRead? && s.consumer.rd < s.write) ==>
      WrittenBelow(s, s.consumer.rd + Min(s.consumer.capacity, s.write - s.consumer.rd))
  }

  ghost predicate OrderlyRun(s: Ring, steps: seq<Step>)
    requires Legal(s, steps)
    decreases |steps|
  {
    steps == [] || (Orderly(s, steps[0]) && OrderlyRun(Next(s, steps[0]), steps[1..]))
  }

  function CopyLimit(s: Ring): nat {
    if s.consumer.Copying? then s.consumer.rd + s.consumer.n else s.read
  }

  ghost predicate Delivering(s: Ring)
    requires Safe(s)
  {
    Intact(s) && WrittenBelow(s, CopyLimit(s))
  }

  lemma InitDelivers(size: nat, producerCount: nat)
    requires size < TWO_TO_THE_64
    ensures Safe(Init(size, producerCount)) && Delivering(Init(size, producerCount))
  {
    InitIntact(size, producerCount);
  }

  /** Tickets below the limit stay written, because a won ticket is not below write. */
  lemma LimitStep(s: Ring, step: Step)
    requires Safe(s) && WrittenBelow(s, CopyLimit(s)) && Enabled(s, step) && Orderly(s, step)
    ensures WrittenBelow(Next(s, step), CopyLimit(Next(s, step))) && CopiesWritten(s, step)
  {
    var s' := Next(s, step);
    forall p | 0 <= p < |s'.producers| && s'.producers[p].Storing?
      ensures s'.producers[p].ticket >= CopyLimit(s')
    {
      assert ProducerOk(s, p);
    }
  }

  lemma DeliverStep(s: Ring, step: Step)
    requires Safe(s) && Delivering(s) && Enabled(s, step) && Orderly(s, step)
    ensures Safe(Next(s, step)) && Delivering(Next(s, step))
  {
    LimitStep(s, step);
    IntactStep(s, step);
  }

  lemma {:induction false} OrderlyRunIsWritten(s: Ring, steps: seq<Step>)
    requires Safe(s) && WrittenBelow(s, CopyLimit(s)) && Legal(s, steps) && OrderlyRun(s, steps)
    ensures WrittenRun(s, steps) && WrittenBelow(After(s, steps), CopyLimit(After(s, steps)))
    decreases |steps|
  {
    if steps != [] {
      LimitStep(s, steps[0]);
      SafeStep(s, steps[0]);
      OrderlyRunIsWritten(Next(s, steps[0]), steps[1..]);
    }
  }

  /**
   * On every orderly schedule the concatenation of all pops is exactly the accepted metrics in ticket order: tickets
   * 0 to read, none lost, repeated or taken from another ticket, even while pushes run during the copy.
   */
  lemma PopsAreAcceptedInOrder(s: Ring, steps: seq<Step>)
    requires Safe(s) && Delivering(s) && Legal(s, steps) && OrderlyRun(s, steps)
    ensures Safe(After(s, steps)) && Delivering(After(s, steps))
    ensures After(s, steps).popped == After(s, steps).accepted[..After(s, steps).read]
  {
    OrderlyRunIsWritten(s, steps);
    WrittenRunDelivers(s, steps);
    PoppedIsAccepted(After(s, steps));
  }

  lemma PoppedIsAccepted(s: Ring)
    requires Safe(s) && Delivered(s)
    ensures s.popped <= s.accepted && s.popped == s.accepted[..s.read]
  {
    assert s.popped <= Taken(s);
  }

  /** No torn metric: the slot being copied is never a slot some producer has yet to write. */
  lemma CopyNeverRacesWithStore(s: Ring, p: nat)
    requires Safe(s) && Delivering(s) && Enabled(s, PopCopy) && Enabled(s, Store(p))
    ensures s.producers[p].ticket % s.size != (s.consumer.rd + |s.consumer.dst|) % s.size
  {
    assert ProducerOk(s, p);
    SlotsDistinct(s.size, s.consumer.rd + |s.consumer.dst|, s.producers[p].ticket);
  }

  // ---------------------------------------------------------------------------------------------------------------
  // How much a pop takes, whatever the schedule
  // ---------------------------------------------------------------------------------------------------------------

  predicate OfConsumer(step: Step) {
    step.PopLoadRead? || step.PopLoadWrite? || step.PopCopy? || step.PopStoreRead?
  }

  predicate NoConsumerStep(steps: seq<Step>) {
    forall i :: 0 <= i < |steps| ==> !OfConsumer(steps[i])
  }

  predicate NoOtherThanCopies(steps: seq<Step>) {
    forall i :: 0 <= i < |steps| ==> OfConsumer(steps[i]) ==> steps[i].PopCopy?
  }

  lemma {:induction false} ConsumerUntouched(s: Ring, steps: seq<Step>)
    requires Legal(s, steps) && NoConsumerStep(steps)
    ensures var s' := After(s, steps); s'.consumer == s.consumer && s'.read == s.read && s'.popped == s.popped
    decreases |steps|
  {
    if steps != [] {
      ConsumerUntouched(Next(s, steps[0]), steps[1..]);
    }
  }

  lemma {:induction false} OnlyCopied(s: Ring, steps: seq<Step>)
    requires Legal(s, steps) && NoOtherThanCopies(steps) && s.consumer.Copying?
    ensures var c, s' := s.consumer, After(s, steps);
      && s'.consumer.Copying? && s'.consumer.rd == c.rd && s'.consumer.n == c.n
      && s'.read == s.read && s'.popped == s.popped
    decreases |steps|
  {
    if steps != [] {
      OnlyCopied(Next(s, steps[0]), steps[1..]);
    }
  }

  /** The steps of one PopInto with room for c among those of any producers: before and during are theirs and copies. */
  function PopAmong(c: nat, before: seq<Step>, during: seq<Step>): seq<Step> {
    [PopLoadRead(c)] + (before + ([PopLoadWrite] + (during + [PopStoreRead])))
  }

  lemma LegalConcat(s: Ring, a: seq<Step>, b: seq<Step>)
    requires Legal(s, a + b)
    ensures Legal(s, a) && Legal(After(s, a), b) && After(s, a + b) == After(After(s, a), b)
    decreases |a|
  {
    hide Next, Enabled;
    if a == [] {
      assert a + b == b;
    } else {
      assert (a + b)[1..] == a[1..] + b;
      LegalConcat(Next(s, a[0]), a[1..], b);
    }
  }

  /**
   * Whatever the producers do meanwhile, a pop with room for c takes as many metrics as had been accepted and not
   * popped when it loaded write, up to c, and advances read by just as many.
   */
  lemma PopTakes(s: Ring, c: nat, before: seq<Step>, during: seq<Step>)
    requires Safe(s) && Legal(s, PopAmong(c, before, during))
    requires NoConsumerStep(before) && NoOtherThanCopies(during)
    ensures Legal(s, [PopLoadRead(c)] + before)
    ensures var loaded, s' := After(s, [PopLoadRead(c)] + before).write, After(s, PopAmong(c, before, during));
      && s.read < loaded && s'.read == s.read + Min(c, loaded - s.read)
      && s.popped <= s'.popped && |s'.popped| == |s.popped| + Min(c, loaded - s.read)
      && s'.consumer.Resting?
  {
    hide Next, Enabled, Legal, After, Safe, PopAmong, NoConsumerStep, NoOtherThanCopies, Min;
    PopSplits(s, c, before, during);
    var s1 := After(s, [PopLoadRead(c)] + before);
    LoadedRead(s, c, before);
    SafeAlways(s, [PopLoadRead(c)] + before);
    PopRest(s1, during);
    SafeAlways(s, PopAmong(c, before, during));
    PoppedCount(s);
    PoppedCount(After(s, PopAmong(c, before, during)));
  }

  lemma PopSplits(s: Ring, c: nat, before: seq<Step>, during: seq<Step>)
    requires Legal(s, PopAmong(c, before, during))
    ensures Legal(s, [PopLoadRead(c)] + before)
    ensures Legal(After(s, [PopLoadRead(c)] + before), [PopLoadWrite] + (during + [PopStoreRead]))
    ensures After(s, PopAmong(c, before, during))
         == After(After(s, [PopLoadRead(c)] + before), [PopLoadWrite] + (during + [PopStoreRead]))
  {
    hide Legal, After;
    var loads, rest := [PopLoadRead(c)] + before, [PopLoadWrite] + (during + [PopStoreRead]);
    ConcatAssociates([PopLoadRead(c)], before, rest);
    assert PopAmong(c, before, during) == loads + rest;
    LegalConcat(s, loads, rest);
  }

  lemma ConcatAssociates<T>(a: seq<T>, b: seq<T>, c: seq<T>)
    ensures a + (b + c) == (a + b) + c
  {
  }

  lemma PoppedCount(s: Ring)
    requires Safe(s)
    ensures |s.popped| == s.read
  {
  }

  /** From its first load to its second a pop knows its room and where read stood, whatever producers do. */
  lemma LoadedRead(s: Ring, c: nat, before: seq<Step>)
    requires NoConsumerStep(before) && Legal(s, [PopLoadRead(c)] + before)
    ensures var s1 := After(s, [PopLoadRead(c)] + before);
      s1.consumer == HasRead(c, s.read) && s1.read == s.read && s1.popped == s.popped
  {
    LegalConcat(s, [PopLoadRead(c)], before);
    LegalHead(s, PopLoadRead(c));
    assert Next(s, PopLoadRead(c)) == s.(consumer := HasRead(c, s.read));
    hide Next, Enabled, Legal, After;
    ConsumerUntouched(Next(s, PopLoadRead(c)), before);
  }

  lemma LegalHead(s: Ring, step: Step)
    requires Legal(s, [step])
    ensures Enabled(s, step) && After(s, [step]) == Next(s, step)
  {
    assert [step][1..] == [];
  }

  lemma PopRest(s: Ring, during: seq<Step>)
    requires Safe(s) && s.consumer.HasRead? && NoOtherThanCopies(during)
    requires Legal(s, [PopLoadWrite] + (during + [PopStoreRead]))
    ensures var s' := After(s, [PopLoadWrite] + (during + [PopStoreRead]));
      var n := Min(s.consumer.capacity, s.write - s.read);
      && s.read < s.write && s'.read == s.read + n && s.popped <= s'.popped && s'.consumer.Resting?
  {
    LegalConcat(s, [PopLoadWrite], during + [PopStoreRead]);
    LegalHead(s, PopLoadWrite);
    var s1 := Next(s, PopLoadWrite);
    LegalConcat(s1, during, [PopStoreRead]);
    if s1.consumer.Resting? {
      NeverStoresRead(s1, during);
    } else {
      OnlyCopied(s1, during);
    }
    LegalHead(After(s1, during), PopStoreRead);
  }

  lemma {:induction false} NeverStoresRead(s: Ring, steps: seq<Step>)
    requires Legal(s, steps) && NoOtherThanCopies(steps) && s.consumer.Resting?
    ensures After(s, steps).consumer.Resting?
    decreases |steps|
  {
    if steps != [] {
      NeverStoresRead(Next(s, steps[0]), steps[1..]);
    }
  }

  /** A pop that finds nothing when it loads write gives up and leaves everything as it was. */
  lemma PopFindsNothing(s: Ring, c: nat, before: seq<Step>)
    requires Safe(s) && NoConsumerStep(before) && Legal(s, [PopLoadRead(c)] + (before + [PopLoadWrite]))
    requires Legal(s, [PopLoadRead(c)] + before) && After(s, [PopLoadRead(c)] + before).write == s.read
    ensures var s' := After(s, [PopLoadRead(c)] + (before + [PopLoadWrite]));
      s'.consumer.Resting? && s'.read == s.read && s'.popped == s.popped
  {
    var loads := [PopLoadRead(c)] + before;
    ConcatAssociates([PopLoadRead(c)], before, [PopLoadWrite]);
    LegalConcat(s, loads, [PopLoadWrite]);
    LoadedRead(s, c, before);
    LegalHead(After(s, loads), PopLoadWrite);
    hide Legal, After, Safe;
  }

  // ---------------------------------------------------------------------------------------------------------------
  // The guarantees from a new ring on
  // ---------------------------------------------------------------------------------------------------------------

  lemma {:induction false} SizesFixed(s: Ring, steps: seq<Step>)
    requires Legal(s, steps)
    ensures After(s, steps).size == s.size && |After(s, steps).producers| == |s.producers|
    decreases |steps|
  {
    if steps != [] {
      SizesFixed(Next(s, steps[0]), steps[1..]);
    }
  }

  /** What NewRingBuffer and any number of producers can reach is safe; a requested size of 0 is taken as 1. */
  lemma SafeFromStart(size: nat, producerCount: nat, steps: seq<Step>)
    requires size < 0x1_0000_0000_0000_0000 && Legal(Init(size, producerCount), steps)
    ensures var s := After(Init(size, producerCount), steps);
      && s.read <= s.write <= s.read + s.size && |s.accepted| == s.write && Safe(s)
      && (size > 0 ==> s.size == size) && (size == 0 ==> s.size == 1) && |s.producers| == producerCount
  {
    SizesFixed(Init(size, producerCount), steps);
    InitSafe(size, producerCount);
    SafeAlways(Init(size, producerCount), steps);
  }

  /** From a new ring on: delivery on every orderly run, and the exact conditions on every run. */
  lemma DeliveryFromStart(size: nat, producerCount: nat, steps: seq<Step>)
    requires size < 0x1_0000_0000_0000_0000 && Legal(Init(size, producerCount), steps)
    ensures var s, s' := Init(size, producerCount), After(Init(size, producerCount), steps);
      && Safe(s) && Intact(s) && s'.read <= |s'.accepted|
      && (OrderlyRun(s, steps) ==> s'.popped == s'.accepted[..s'.read])
      && (Delivered(s') <==> SoundRun(s, steps))
      && (LapsDiffer(s') ==> (Delivered(s') <==> WrittenRun(s, steps)))
  {
    var s := Init(size, producerCount);
    InitDelivers(size, producerCount);
    SafeAlways(s, steps);
    if OrderlyRun(s, steps) {
      PopsAreAcceptedInOrder(s, steps);
    }
    DeliveredExactlyIfSound(s, steps);
    if LapsDiffer(After(s, steps)) {
      DeliveredExactlyIfWritten(s, steps);
    }
  }

  // ---------------------------------------------------------------------------------------------------------------
  // Conservation: every metric a push was called with is accepted, rejected or still in flight
  // ---------------------------------------------------------------------------------------------------------------

  function InFlightOf(p: Producer): multiset<Metric> {
    match p
    case Pushing(m) => multiset{m}
    case HasWrite(m, _) => multiset{m}
    case HasBoth(m, _, _, _) => multiset{m}
    case _ => multiset{}
  }

  function InFlight(ps: seq<Producer>): multiset<Metric> {
    if ps == [] then multiset{} else InFlight(ps[..|ps| - 1]) + InFlightOf(ps[|ps| - 1])
  }

  ghost predicate Conserved(s: Ring) {
    multiset(s.called) == multiset(s.accepted) + multiset(s.rejected) + InFlight(s.producers)
  }

  lemma {:induction false} NothingInFlight(ps: seq<Producer>)
    requires forall p :: 0 <= p < |ps| ==> InFlightOf(ps[p]) == multiset{}
    ensures InFlight(ps) == multiset{}
  {
    if ps != [] {
      NothingInFlight(ps[..|ps| - 1]);
    }
  }

  lemma InitConserved(size: nat, producerCount: nat)
    ensures Conserved(Init(size, producerCount))
  {
    NothingInFlight(Init(size, producerCount).producers);
  }

  /** Replacing one producer's state exchanges its metric and nothing else. */
  lemma {:induction false} InFlightChange(ps: seq<Producer>, p: nat, to: Producer)
    requires p < |ps|
    ensures InFlight(ps[p := to]) + InFlightOf(ps[p]) == InFlight(ps) + InFlightOf(to)
  {
    hide InFlightOf;
    var n, qs := |ps| - 1, ps[p := to];
    if p == n {
      assert qs[..n] == ps[..n];
    } else {
      InFlightChange(ps[..n], p, to);
      assert qs[..n] == ps[..n][p := to];
      ExchangeBeside(InFlight(qs[..n]), InFlightOf(ps[p]), InFlight(ps[..n]), InFlightOf(to), InFlightOf(ps[n]));
    }
  }

  /** The balance survives a metric entering flight, leaving it accepted or rejected, or nothing moving. */
  lemma Rebalance(s: Ring, s': Ring, p: nat, entering: seq<Metric>, accepted: seq<Metric>, rejected: seq<Metric>)
    requires Conserved(s) && p < |s.producers| && |s'.producers| == |s.producers|
    requires s'.producers == s.producers[p := s'.producers[p]]
    requires s'.called == s.called + entering
    requires s'.accepted == s.accepted + accepted && s'.rejected == s.rejected + rejected
    requires InFlightOf(s.producers[p]) + multiset(entering)
          == InFlightOf(s'.producers[p]) + (multiset(accepted) + multiset(rejected))
    ensures Conserved(s')
  {
    var old', new' := InFlightOf(s.producers[p]), InFlightOf(s'.producers[p]);
    var before, after := InFlight(s.producers), InFlight(s'.producers);
    InFlightChange(s.producers, p, s'.producers[p]);
    forall e
      ensures (after + (multiset(accepted) + multiset(rejected)))[e] == (before + multiset(entering))[e]
    {
      assert (after + old')[e] == (before + new')[e];
      assert (old' + multiset(entering))[e] == (new' + (multiset(accepted) + multiset(rejected)))[e];
    }
    BalanceAfter(multiset(s.called), multiset(s.accepted), multiset(s.rejected), before, after,
      multiset(entering), multiset(accepted), multiset(rejected));
    assert multiset(s'.called) == multiset(s.called) + multiset(entering);
    assert multiset(s'.accepted) == multiset(s.accepted) + multiset(accepted);
    assert multiset(s'.rejected) == multiset(s.rejected) + multiset(rejected);
  }

  lemma QuietChange(s: Ring, s': Ring, p: nat)
    requires Conserved(s) && p < |s.producers| && |s'.producers| == |s.producers|
    requires s'.producers == s.producers[p := s'.producers[p]]
    requires s'.called == s.called && s'.accepted == s.accepted && s'.rejected == s.rejected
    requires InFlightOf(s.producers[p]) == InFlightOf(s'.producers[p])
    ensures Conserved(s')
  {
    Rebalance(s, s', p, [], [], []);
  }

  lemma SwapConserves(s: Ring, p: nat)
    requires Conserved(s) && Enabled(s, CompareAndSwap(p))
    ensures Conserved(Next(s, CompareAndSwap(p)))
  {
    var s' := Next(s, CompareAndSwap(p));
    if s.write == s.producers[p].w {
      Rebalance(s, s', p, [], [s.producers[p].m], []);
    } else {
      QuietChange(s, s', p);
    }
  }

  lemma CallConserves(s: Ring, p: nat, m: Metric)
    requires Conserved(s) && Enabled(s, Call(p, m))
    ensures Conserved(Next(s, Call(p, m)))
  {
    Rebalance(s, Next(s, Call(p, m)), p, [m], [], []);
  }

  lemma RejectConserves(s: Ring, p: nat)
    requires Conserved(s) && Enabled(s, Reject(p))
    ensures Conserved(Next(s, Reject(p)))
  {
    Rebalance(s, Next(s, Reject(p)), p, [], [], [s.producers[p].m]);
  }

  lemma LoadConserves(s: Ring, step: Step)
    requires Conserved(s) && Enabled(s, step) && (step.LoadWrite? || step.LoadRead?)
    ensures Conserved(Next(s, step))
  {
    QuietChange(s, Next(s, step), step.p);
  }

  lemma StoreConserves(s: Ring, p: nat)
    requires Conserved(s) && Enabled(s, Store(p))
    ensures Conserved(Next(s, Store(p)))
  {
    QuietChange(s, Next(s, Store(p)), p);
  }

  lemma ConsumerConserves(s: Ring, step: Step)
    requires Conserved(s) && Enabled(s, step)
    requires step.PopLoadRead? || step.PopLoadWrite? || step.PopCopy? || step.PopStoreRead?
    ensures Conserved(Next(s, step))
  {
    hide InFlight;
  }

  lemma ConservedStep(s: Ring, step: Step)
    requires Conserved(s) && Enabled(s, step)
    ensures Conserved(Next(s, step))
  {
    hide Conserved, Enabled, Next;
    match step
    case Call(p, m) => CallConserves(s, p, m);
    case Reject(p) => RejectConserves(s, p);
    case CompareAndSwap(p) => SwapConserves(s, p);
    case LoadWrite(p) => LoadConserves(s, step);
    case LoadRead(p) => LoadConserves(s, step);
    case Store(p) => StoreConserves(s, p);
    case _ => ConsumerConserves(s, step);
  }

  ghost predicate AllIdle(s: Ring) {
    forall p :: 0 <= p < |s.producers| ==> s.producers[p].Idle?
  }

  /** While nothing has been popped, a push is turned away only by a ring that is full and stays full. */
  ghost predicate Filling(s: Ring) {
    |s.accepted| <= s.size && (s.rejected != [] ==> |s.accepted| == s.size)
  }

  lemma FillingStep(s: Ring, step: Step)
    requires Safe(s) && Filling(s) && Enabled(s, step)
    requires s.read == 0 || !(step.Reject? || step.CompareAndSwap?)
    ensures Filling(Next(s, step))
  {
    SafeStep(s, step);
    if step.Reject? {
      TestIsHonest(s, step.p);
      assert ProducerOk(s, step.p);
    }
  }

  /** Once every producer is done, as many metrics are in as there were calls, up to the size. */
  lemma FilledCount(s: Ring)
    requires Conserved(s) && Filling(s) && AllIdle(s)
    ensures |s.accepted| == Min(|s.called|, s.size)
    ensures |s.called| <= s.size ==> Permutation(s.called, s.accepted)
    ensures multiset(s.accepted) <= multiset(s.called)
  {
    NothingInFlight(s.producers);
    assert multiset(s.called) == multiset(s.accepted) + multiset(s.rejected);
    assert |multiset(s.called)| == |s.accepted| + |s.rejected|;
    if |s.called| <= s.size {
      assert s.rejected == [];
    }
  }

  /** A drained ring with every producer done delivers, so its slots hold what a sequential drain would find. */
  lemma HeldIsAccepted(s: Ring)
    requires Safe(s) && Delivering(s) && AllIdle(s)
    ensures Held(s.buf, s.read, s.write) == s.accepted[s.read..]
  {
    forall i | 0 <= i < s.write - s.read
      ensures Held(s.buf, s.read, s.write)[i] == s.accepted[s.read..][i]
    {
      assert !Unwritten(s, s.read + i);
    }
  }

  // ---------------------------------------------------------------------------------------------------------------
  // Operations that run without interference
  // ---------------------------------------------------------------------------------------------------------------

  lemma Unroll(s: Ring, step: Step, rest: seq<Step>)
    requires Enabled(s, step) && Legal(Next(s, step), rest)
    ensures Legal(s, [step] + rest) && After(s, [step] + rest) == After(Next(s, step), rest)
  {
    assert ([step] + rest)[1..] == rest;
  }

  lemma {:induction false} AfterConcat(s: Ring, a: seq<Step>, b: seq<Step>)
    requires Legal(s, a) && Legal(After(s, a), b)
    ensures Legal(s, a + b) && After(s, a + b) == After(After(s, a), b)
    decreases |a|
  {
    hide Next, Enabled;
    if a == [] {
      assert a + b == b;
    } else {
      AfterConcat(Next(s, a[0]), a[1..], b);
      assert a + b == [a[0]] + (a[1..] + b);
      Unroll(s, a[0], a[1..] + b);
    }
  }

  function CopySteps(k: nat): seq<Step> {
    if k == 0 then [PopStoreRead] else [PopCopy] + CopySteps(k - 1)
  }

  /** A whole PopInto with room for c metrics: nothing to copy from an empty ring, otherwise as many slots as fit. */
  function PopSteps(s: Ring, c: nat): seq<Step>
    requires s.read <= s.write
  {
    if s.read == s.write then [PopLoadRead(c), PopLoadWrite]
    else [PopLoadRead(c), PopLoadWrite] + CopySteps(Min(c, s.write - s.read))
  }

  /** Where a pop that is copying ends up if nobody interrupts it. */
  function PopFinished(s: Ring): Ring
    requires s.consumer.Copying? && |s.consumer.dst| <= s.consumer.n && |s.buf| > 0
  {
    var c := s.consumer;
    s.(consumer := Resting, read := c.rd + c.n,
       popped := s.popped + c.dst + Held(s.buf, c.rd + |c.dst|, c.rd + c.n))
  }

  lemma {:induction false} CopyAlone(s: Ring, k: nat)
    requires s.consumer.Copying? && |s.consumer.dst| + k == s.consumer.n && |s.buf| == s.size > 0
    ensures Legal(s, CopySteps(k)) && After(s, CopySteps(k)) == PopFinished(s)
    decreases k
  {
    if k == 0 {
      CopiedAll(s);
    } else {
      var s' := AfterCopy(s);
      hide Next, Enabled, PopFinished;
      CopyAlone(s', k - 1);
      Unroll(s, PopCopy, CopySteps(k - 1));
    }
  }

  lemma AfterCopy(s: Ring) returns (s': Ring)
    requires s.consumer.Copying? && |s.consumer.dst| < s.consumer.n && |s.buf| == s.size > 0
    ensures Enabled(s, PopCopy) && s' == Next(s, PopCopy)
    ensures s'.consumer.Copying? && |s'.consumer.dst| == |s.consumer.dst| + 1 && s'.consumer.n == s.consumer.n
    ensures s'.size == s.size && |s'.buf| == |s.buf|
    ensures PopFinished(s') == PopFinished(s)
  {
    s' := Next(s, PopCopy);
    var c := s.consumer;
    HeldSplit(s.popped + c.dst, s.buf, c.rd + |c.dst|, c.rd + c.n);
    assert s.popped + s'.consumer.dst == s.popped + c.dst + [s.buf[(c.rd + |c.dst|) % s.size]];
  }

  lemma CopiedAll(s: Ring)
    requires s.consumer.Copying? && |s.consumer.dst| == s.consumer.n && |s.buf| > 0
    ensures Legal(s, CopySteps(0)) && After(s, CopySteps(0)) == PopFinished(s)
  {
    var c := s.consumer;
    Unroll(s, PopStoreRead, []);
    assert [PopStoreRead] + [] == CopySteps(0);
    assert s.popped + c.dst + Held(s.buf, c.rd + |c.dst|, c.rd + c.n) == s.popped + c.dst;
  }

  lemma HeldSplit(front: seq<Metric>, buf: seq<Metric>, from: nat, to: nat)
    requires |buf| > 0 && from < to
    ensures front + Held(buf, from, to) == front + [buf[from % |buf|]] + Held(buf, from + 1, to)
  {
    HeldPop(buf, from, to, 1);
    var here := Held(buf, from, to);
    assert here == [here[0]] + here[1..];
  }

  lemma LoadsForPop(s: Ring, c: nat)
    requires s.consumer.Resting?
    ensures Legal(s, [PopLoadRead(c), PopLoadWrite])
    ensures After(s, [PopLoadRead(c), PopLoadWrite])
      == if s.write <= s.read then s else s.(consumer := Copying(s.read, Min(c, s.write - s.read), []))
  {
    var s1 := Next(s, PopLoadRead(c));
    Unroll(s1, PopLoadWrite, []);
    Unroll(s, PopLoadRead(c), [PopLoadWrite]);
  }

  lemma CopiedFromStart(s: Ring, n: nat)
    requires s.consumer.Resting? && |s.buf| > 0
    ensures PopFinished(s.(consumer := Copying(s.read, n, [])))
      == s.(read := s.read + n, popped := s.popped + Held(s.buf, s.read, s.read + n))
  {
    assert s.popped + [] == s.popped;
  }

  lemma PopOfSome(s: Ring, c: nat, n: nat)
    requires Bounded(s) && s.consumer.Resting? && s.read < s.write && n == Min(c, s.write - s.read)
    ensures Legal(s, [PopLoadRead(c), PopLoadWrite] + CopySteps(n))
    ensures After(s, [PopLoadRead(c), PopLoadWrite] + CopySteps(n))
      == s.(read := s.read + n, popped := s.popped + Held(s.buf, s.read, s.read + n))
  {
    var s' := s.(consumer := Copying(s.read, n, []));
    LoadsForPop(s, c);
    CopiedFromStart(s, n);
    hide Next, Enabled, Legal, After, Held, PopFinished, CopySteps, Min;
    CopyAlone(s', n);
    AfterConcat(s, [PopLoadRead(c), PopLoadWrite], CopySteps(n));
  }

  lemma PopOfNone(s: Ring, c: nat)
    requires Bounded(s) && s.consumer.Resting? && s.read == s.write
    ensures Legal(s, [PopLoadRead(c), PopLoadWrite])
    ensures After(s, [PopLoadRead(c), PopLoadWrite])
      == s.(read := s.read, popped := s.popped + Held(s.buf, s.read, s.read))
  {
    LoadsForPop(s, c);
    assert s.popped + Held(s.buf, s.read, s.read) == s.popped;
  }

  /** A pop that nobody interrupts hands over the slots it covers, whatever they hold: as many as there are and fit. */
  lemma PopAlone(s: Ring, c: nat)
    requires Bounded(s) && s.consumer.Resting?
    ensures var n := Min(c, s.write - s.read);
      && Legal(s, PopSteps(s, c))
      && After(s, PopSteps(s, c)) == s.(read := s.read + n, popped := s.popped + Held(s.buf, s.read, s.read + n))
  {
    var n := Min(c, s.write - s.read);
    hide Legal, After, Held, CopySteps, Min, Enabled, Next;
    if s.read == s.write {
      PopOfNone(s, c);
    } else {
      PopOfSome(s, c, n);
    }
  }

  /** A pop nobody interrupts delivers exactly if every ticket it covers is deliverable when it starts. */
  lemma UninterruptedPopIsExact(s: Ring, c: nat)
    requires Safe(s) && Intact(s) && s.consumer.Resting?
    ensures Legal(s, PopSteps(s, c))
    ensures Delivered(After(s, PopSteps(s, c))) <==>
            forall t :: s.read <= t < s.read + Min(c, s.write - s.read) ==> Deliverable(s, t)
  {
    assert Bounded(s);
    hide Held, Safe, Intact, Deliverable, After, Legal;
    PopAlone(s, c);
    DeliveredAfterPop(s, After(s, PopSteps(s, c)), Min(c, s.write - s.read));
  }

  lemma DeliveredAfterPop(s: Ring, s': Ring, n: nat)
    requires Safe(s) && Intact(s) && !s.consumer.Copying? && s.read + n <= s.write && |s.buf| > 0
    requires !s'.consumer.Copying? && s'.accepted == s.accepted
    requires s'.popped == s.popped + Held(s.buf, s.read, s.read + n)
    ensures Delivered(s') <==> forall t :: s.read <= t < s.read + n ==> Deliverable(s, t)
  {
    BatchIsExact(s, n);
    PoppedIsAccepted(s);
    TakenIsAccepted(s);
    hide Held, Safe, Intact, Deliverable;
    PrefixExtends(s.popped, Held(s.buf, s.read, s.read + n), s.accepted);
  }

  lemma SlotInWindow(s: Ring, t: nat)
    requires Safe(s) && Intact(s) && s.read <= t < s.write
    ensures s.buf[t % s.size] == MetricOfTicket(s, t) <==> Deliverable(s, t)
  {
    hide Written;
    assert s.stored[t % s.size] == if Written(s, t) then t else t - s.size;
  }

  lemma BatchAt(s: Ring, n: nat, i: nat)
    requires Safe(s) && Intact(s) && s.read + n <= s.write && i < n
    ensures Held(s.buf, s.read, s.read + n)[i] == s.accepted[s.read..s.read + n][i] <==> Deliverable(s, s.read + i)
  {
    SlotInWindow(s, s.read + i);
  }

  lemma BatchIsExact(s: Ring, n: nat)
    requires Safe(s) && Intact(s) && s.read + n <= s.write
    ensures Held(s.buf, s.read, s.read + n) == s.accepted[s.read..s.read + n] <==>
            forall t :: s.read <= t < s.read + n ==> Deliverable(s, t)
  {
    hide Intact, Deliverable, Held;
    var batch, due := Held(s.buf, s.read, s.read + n), s.accepted[s.read..s.read + n];
    if batch == due {
      forall t | s.read <= t < s.read + n
        ensures Deliverable(s, t)
      {
        BatchAt(s, n, t - s.read);
      }
    } else {
      var i :| 0 <= i < n && batch[i] != due[i];
      BatchAt(s, n, i);
    }
  }

  lemma PrefixExtends<T>(a: seq<T>, b: seq<T>, all: seq<T>)
    requires a <= all && |a| + |b| <= |all|
    ensures a + b <= all <==> b == all[|a|..|a| + |b|]
  {
    if a + b <= all {
      assert b == (a + b)[|a|..];
    }
  }

  function LoadSteps(p: nat, m: Metric): seq<Step> {
    [Call(p, m), LoadWrite(p), LoadRead(p)]
  }

  lemma LoadsAlone(s: Ring, p: nat, m: Metric)
    requires p < |s.producers| && s.producers[p].Idle?
    ensures Legal(s, LoadSteps(p, m))
    ensures After(s, LoadSteps(p, m))
      == SetProducer(s, p, HasBoth(m, s.write, s.read, s.write == s.read + s.size)).(called := s.called + [m])
  {
    var s1 := Next(s, Call(p, m));
    var s2 := Next(s1, LoadWrite(p));
    Unroll(s2, LoadRead(p), []);
    Unroll(s1, LoadWrite(p), [LoadRead(p)]);
    Unroll(s, Call(p, m), [LoadWrite(p), LoadRead(p)]);
  }

  lemma SwapAndStoreAlone(s: Ring, p: nat)
    requires Bounded(s) && p < |s.producers| && s.producers[p].HasBoth?
    requires s.producers[p].w == s.write && s.producers[p].rd == s.read && s.write - s.read < s.size
    ensures Legal(s, [CompareAndSwap(p), Store(p)])
    ensures var m := s.producers[p].m;
      After(s, [CompareAndSwap(p), Store(p)]) == SetProducer(s, p, Idle).(write := s.write + 1,
        buf := s.buf[s.write % s.size := m], stored := s.stored[s.write % s.size := s.write],
        accepted := s.accepted + [m], owners := s.owners + [p])
  {
    var s1 := Next(s, CompareAndSwap(p));
    assert s1.producers[p := Idle] == s.producers[p := Idle];
    Unroll(s1, Store(p), []);
    Unroll(s, CompareAndSwap(p), [Store(p)]);
  }

  /** A push that nobody interrupts on a ring with room appends, as the sequential one does. */
  lemma PushAloneAppends(s: Ring, p: nat, m: Metric)
    requires Bounded(s) && p < |s.producers| && s.producers[p].Idle? && s.write - s.read < s.size
    ensures var steps := LoadSteps(p, m) + [CompareAndSwap(p), Store(p)];
      && Legal(s, steps)
      && var s' := After(s, steps);
      && s'.producers == s.producers && s'.read == s.read <= s'.write && |s'.buf| == |s.buf|
      && Held(s'.buf, s'.read, s'.write) == Held(s.buf, s.read, s.write) + [m]
      && s'.accepted == s.accepted + [m] && s'.rejected == s.rejected
  {
    LoadsAlone(s, p, m);
    var s1 := After(s, LoadSteps(p, m));
    SwapAndStoreAlone(s1, p);
    AfterConcat(s, LoadSteps(p, m), [CompareAndSwap(p), Store(p)]);
    assert s1.producers[p := Idle] == s.producers;
    HeldPush(s.buf, s.read, s.write, m);
  }

  /** A push that nobody interrupts on a full ring is turned away and leaves the ring as it was. */
  lemma PushAloneOnFullRing(s: Ring, p: nat, m: Metric)
    requires Bounded(s) && p < |s.producers| && s.producers[p].Idle? && s.write - s.read == s.size
    ensures Legal(s, LoadSteps(p, m) + [Reject(p)])
    ensures After(s, LoadSteps(p, m) + [Reject(p)])
      == s.(called := s.called + [m], rejected := s.rejected + [m])
  {
    LoadsAlone(s, p, m);
    var s1 := After(s, LoadSteps(p, m));
    Unroll(s1, Reject(p), []);
    AfterConcat(s, LoadSteps(p, m), [Reject(p)]);
    assert s1.producers[p := Idle] == s.producers;
  }

  // ---------------------------------------------------------------------------------------------------------------
  // Claims the code does not support, with the runs that refute them
  // ---------------------------------------------------------------------------------------------------------------

  const POP_ONE: seq<Step> := [PopLoadRead(1), PopLoadWrite] + [PopCopy, PopStoreRead]

  lemma LoadsForOne(s: Ring)
    requires s.consumer.Resting? && s.read < s.write
    ensures Legal(s, [PopLoadRead(1), PopLoadWrite])
    ensures After(s, [PopLoadRead(1), PopLoadWrite]) == s.(consumer := Copying(s.read, 1, []))
  {
    var s1 := Next(s, PopLoadRead(1));
    Unroll(s1, PopLoadWrite, []);
    Unroll(s, PopLoadRead(1), [PopLoadWrite]);
  }

  lemma CopiesOne(s: Ring)
    requires s.consumer == Copying(s.read, 1, []) && |s.stored| == |s.buf| == s.size > 0
    ensures Legal(s, [PopCopy, PopStoreRead])
    ensures After(s, [PopCopy, PopStoreRead])
      == s.(consumer := Resting, read := s.read + 1, popped := s.popped + [s.buf[s.read % s.size]])
  {
    var s1 := Next(s, PopCopy);
    Unroll(s1, PopStoreRead, []);
    Unroll(s, PopCopy, [PopStoreRead]);
  }

  lemma PopOneAlone(s: Ring)
    requires s.consumer.Resting? && s.read < s.write && |s.stored| == |s.buf| == s.size > 0
    ensures Legal(s, POP_ONE)
    ensures After(s, POP_ONE) == s.(read := s.read + 1, popped := s.popped + [s.buf[s.read % s.size]])
  {
    hide Next, Enabled, Legal, After;
    var s' := s.(consumer := Copying(s.read, 1, []));
    LoadsForOne(s);
    CopiesOne(s');
    AfterConcat(s, [PopLoadRead(1), PopLoadWrite], [PopCopy, PopStoreRead]);
  }

  /** Not every schedule delivers: a consumer that overtakes an unwritten ticket hands over the slot's old content. */
  lemma OvertakingLosesMetric(m: Metric)
    requires m != ZERO_METRIC
    ensures var steps := LoadSteps(0, m) + ([CompareAndSwap(0)] + POP_ONE);
      && Legal(Init(1, 1), steps)
      && After(Init(1, 1), steps).accepted == [m] && After(Init(1, 1), steps).popped == [ZERO_METRIC]
  {
    var s := Init(1, 1);
    LoadsAlone(s, 0, m);
    var s' := After(s, LoadSteps(0, m));
    PopOneAlone(Next(s', CompareAndSwap(0)));
    Unroll(s', CompareAndSwap(0), POP_ONE);
    AfterConcat(s, LoadSteps(0, m), [CompareAndSwap(0)] + POP_ONE);
  }

  const STORE_IN_TIME: seq<Step> := [PopLoadWrite, Store(0)] + [PopCopy, PopStoreRead]

  /** The premise of orderly runs is more than delivery needs: a store between the load of write and the copy does. */
  lemma StoreMayComeInTime(m: Metric)
    ensures var s, steps := Init(1, 1), LoadSteps(0, m) + ([CompareAndSwap(0), PopLoadRead(1)] + STORE_IN_TIME);
      && Legal(s, steps) && !OrderlyRun(s, steps)
      && After(s, steps).popped == After(s, steps).accepted == [m]
  {
    var s := Init(1, 1);
    LoadsAlone(s, 0, m);
    var s3 := After(s, LoadSteps(0, m));
    var s4 := Next(s3, CompareAndSwap(0));
    var s5 := Next(s4, PopLoadRead(1));
    StoresInTime(s5, m);
    var rest := [CompareAndSwap(0), PopLoadRead(1)] + STORE_IN_TIME;
    Unroll(s4, PopLoadRead(1), STORE_IN_TIME);
    Unroll(s3, CompareAndSwap(0), [PopLoadRead(1)] + STORE_IN_TIME);
    assert [CompareAndSwap(0)] + ([PopLoadRead(1)] + STORE_IN_TIME) == rest;
    AfterConcat(s, LoadSteps(0, m), rest);
    assert rest[1..] == [PopLoadRead(1)] + STORE_IN_TIME && rest[1..][1..] == STORE_IN_TIME;
    if OrderlyRun(s, LoadSteps(0, m) + rest) {
      OrderlyTail(s, LoadSteps(0, m), rest);
    }
  }

  lemma StoresInTime(s: Ring, m: Metric)
    requires s.size == 1 == |s.buf| == |s.stored| && s.write == 1 && s.read == 0 && s.popped == []
    requires s.producers == [Storing(m, 0)] && s.consumer == HasRead(1, 0)
    ensures Legal(s, STORE_IN_TIME) && After(s, STORE_IN_TIME).popped == [m]
    ensures After(s, STORE_IN_TIME).accepted == s.accepted && !OrderlyRun(s, STORE_IN_TIME)
  {
    var s1 := Next(s, PopLoadWrite);
    var s2 := Next(s1, Store(0));
    CopiesOne(s2);
    Unroll(s1, Store(0), [PopCopy, PopStoreRead]);
    Unroll(s, PopLoadWrite, [Store(0)] + [PopCopy, PopStoreRead]);
    assert [PopLoadWrite] + ([Store(0)] + [PopCopy, PopStoreRead]) == STORE_IN_TIME;
    assert !Orderly(s, PopLoadWrite);
  }

  lemma {:induction false} OrderlyTail(s: Ring, a: seq<Step>, b: seq<Step>)
    requires Legal(s, a) && Legal(After(s, a), b) && Legal(s, a + b) && OrderlyRun(s, a + b)
    ensures OrderlyRun(After(s, a), b)
    decreases |a|
  {
    if a == [] {
      assert a + b == b;
    } else {
      assert (a + b)[1..] == a[1..] + b;
      OrderlyTail(Next(s, a[0]), a[1..], b);
    }
  }

  function LoadThenOtherPushes(m: Metric): seq<Step> {
    [Call(0, m), LoadWrite(0), Call(1, m), LoadWrite(1), LoadRead(1), CompareAndSwap(1), Store(1)]
  }

  const POP_THEN_REJECT: seq<Step> := POP_ONE + [LoadRead(0), Reject(0)]

  lemma StaleLoad(m: Metric)
    ensures Legal(Init(1, 2), LoadThenOtherPushes(m))
    ensures After(Init(1, 2), LoadThenOtherPushes(m))
      == Ring(1, 1, 0, [m], [HasWrite(m, 0), Idle], Resting, [m, m], [m], [1], [0], [], [])
  {
    var s := Init(1, 2);
    var s1 := Next(s, Call(0, m));
    var s2 := Next(s1, LoadWrite(0));
    LoadsAlone(s2, 1, m);
    var s3 := After(s2, LoadSteps(1, m));
    SwapAndStoreAlone(s3, 1);
    var rest := LoadSteps(1, m) + [CompareAndSwap(1), Store(1)];
    AfterConcat(s2, LoadSteps(1, m), [CompareAndSwap(1), Store(1)]);
    assert After(s2, rest) == Ring(1, 1, 0, [m], [HasWrite(m, 0), Idle], Resting, [m, m], [m], [1], [0], [], []);
    Unroll(s1, LoadWrite(0), rest);
    Unroll(s, Call(0, m), [LoadWrite(0)] + rest);
    assert [Call(0, m)] + ([LoadWrite(0)] + rest) == LoadThenOtherPushes(m);
  }

  lemma PopThenReject(s: Ring, m: Metric)
    requires s == Ring(1, 1, 0, [m], [HasWrite(m, 0), Idle], Resting, [m, m], [m], [1], [0], [], [])
    ensures Legal(s, POP_THEN_REJECT)
    ensures After(s, POP_THEN_REJECT) == Ring(1, 1, 1, [m], [Idle, Idle], Resting, [m, m], [m], [1], [0], [m], [m])
  {
    var s' := s.(read := 1, popped := [m]);
    PopOneAlone(s);
    assert After(s, POP_ONE) == s' by {
      hide After, Legal;
    }
    RejectStale(s', m);
    hide Next, Enabled, After, Legal;
    AfterConcat(s, POP_ONE, [LoadRead(0), Reject(0)]);
  }

  lemma RejectStale(s: Ring, m: Metric)
    requires s == Ring(1, 1, 1, [m], [HasWrite(m, 0), Idle], Resting, [m, m], [m], [1], [0], [], [m])
    ensures Legal(s, [LoadRead(0), Reject(0)])
    ensures After(s, [LoadRead(0), Reject(0)])
      == Ring(1, 1, 1, [m], [Idle, Idle], Resting, [m, m], [m], [1], [0], [m], [m])
  {
    var s1 := Next(s, LoadRead(0));
    assert s1.producers == [HasBoth(m, 0, 1, false), Idle];
    Unroll(s1, Reject(0), []);
    Unroll(s, LoadRead(0), [Reject(0)]);
  }

  /** Push may return false on an empty ring: its first load is stale and the wrapped difference is huge. */
  lemma RejectedThoughEmpty(m: Metric)
    ensures Legal(Init(1, 2), LoadThenOtherPushes(m) + POP_THEN_REJECT)
    ensures var s' := After(Init(1, 2), LoadThenOtherPushes(m) + POP_THEN_REJECT);
      s'.rejected == [m] && s'.read == s'.write
  {
    StaleLoad(m);
    PopThenReject(After(Init(1, 2), LoadThenOtherPushes(m)), m);
    AfterConcat(Init(1, 2), LoadThenOtherPushes(m), POP_THEN_REJECT);
  }
}
