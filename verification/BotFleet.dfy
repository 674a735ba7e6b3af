/**
 * The load generator: order ids, order construction, and the send/receive protocol of one bot against an engine that
 * may answer in any order, twice, never, or with ids nobody sent.
 */
module BotFleet {
  import opened Sequences
  import opened Decimal
  import opened Telemetry
  import opened Trading

  // ---------------------------------------------------------------------------------------------------------------
  // Order ids
  // ---------------------------------------------------------------------------------------------------------------

  /** The id of the bot at position i of the fleet. */
  function BotId(i: nat): string {
    "bot-" + Print(i + 1)
  }

  function OrderId(i: nat, seqNo: nat): string {
    BotId(i) + "-" + Print(seqNo)
  }

  lemma HyphenSplitsUniquely(a: string, b: string, c: string, d: string)
    requires AllDigits(a) && AllDigits(c) && a + "-" + b == c + "-" + d
    ensures a == c && b == d
  {
    var ab, cd := a + "-" + b, c + "-" + d;
    assert ab[|a|] == '-' && cd[|c|] == '-';
    assert forall k :: 0 <= k < |a| ==> ab[k] == a[k];
    assert forall k :: 0 <= k < |c| ==> cd[k] == c[k];
    assert |a| == |c|;
    assert a == ab[..|a|] && c == cd[..|c|];
    assert b == ab[|a| + 1..] && d == cd[|c| + 1..];
  }

  /** No two orders of the fleet share an id: "bot-i-seq" determines the bot and the sequence number. */
  lemma OrderIdInjective(i: nat, m: nat, j: nat, n: nat)
    requires OrderId(i, m) == OrderId(j, n)
    ensures i == j && m == n
  {
    assert OrderId(i, m) == "bot-" + (Print(i + 1) + "-" + Print(m));
    assert OrderId(j, n) == "bot-" + (Print(j + 1) + "-" + Print(n));
    assert OrderId(i, m)[4..] == Print(i + 1) + "-" + Print(m);
    assert OrderId(j, n)[4..] == Print(j + 1) + "-" + Print(n);
    HyphenSplitsUniquely(Print(i + 1), Print(m), Print(j + 1), Print(n));
    PrintInjective(i + 1, j + 1);
    PrintInjective(m, n);
  }

  // ---------------------------------------------------------------------------------------------------------------
  // Orders and verdicts
  // ---------------------------------------------------------------------------------------------------------------

  /** What the random generator yields for one order. */
  datatype Draw = Draw(side: nat, roll: nat, quantity: nat, price: real)

  predicate ValidDraw(d: Draw) {
    d.side < 2 && d.roll < 10 && d.quantity < 10 && 0.0 <= d.price < 1.0
  }

  /**
   * What a draw fixes about an order. A cancel probe is for nothing and the only order that is; market orders carry no
   * price; limit prices span 98 to 102.
   */
  predicate OrderAsDrawn(req: OrderRequest, isCancel: bool, botIndex: nat, seqNo: nat, symbol: string, d: Draw) {
    && req.orderId == OrderId(botIndex, seqNo) && req.clientId == BotId(botIndex) && req.symbol == symbol
    && (req.side.SELL? <==> d.side == 0)
    && (isCancel <==> req.quantity == 0) && (isCancel <==> d.roll == 9)
    && (!isCancel ==> req.quantity - 1 == d.quantity)
    && (req.orderType.MARKET? <==> d.roll < 6) && (req.orderType.MARKET? ==> req.price == 0.0)
    && (req.orderType.LIMIT? ==> req.price - 98.0 == if isCancel then 2.0 else 4.0 * d.price)
  }

  /** The order with sequence number seqNo and whether it is a cancel probe: 60% market, 30% limit, 10% cancel. */
  method BuildOrder(botIndex: nat, seqNo: nat, symbol: string, d: Draw) returns (req: OrderRequest, isCancel: bool)
    requires ValidDraw(d)
    ensures OrderAsDrawn(req, isCancel, botIndex, seqNo, symbol, d)
  {
    var orderId := OrderId(botIndex, seqNo);
    var side := BUY;
    if d.side == 0 {
      side := SELL;
    }
    var orderType, price, quantity;
    isCancel := false;
    if d.roll < 6 {
      orderType, price := MARKET, 0.0;
      quantity := 1 + d.quantity;
    } else if d.roll < 9 {
      orderType := LIMIT;
      price := 100.0 + (d.price * 4.0 - 2.0);
      quantity := 1 + d.quantity;
    } else {
      orderType := LIMIT;
      price := 100.0;
      quantity := 0;
      isCancel := true;
    }
    req := OrderRequest(orderId, BotId(botIndex), symbol, side, orderType, price, quantity);
  }

  function Order(botIndex: nat, seqNo: nat, symbol: string, d: Draw): (OrderRequest, bool) {
    var id, bot, side := OrderId(botIndex, seqNo), BotId(botIndex), if d.side == 0 then SELL else BUY;
    if d.roll < 6 then (OrderRequest(id, bot, symbol, side, MARKET, 0.0, 1 + d.quantity), false)
    else if d.roll < 9 then
      (OrderRequest(id, bot, symbol, side, LIMIT, 100.0 + (d.price * 4.0 - 2.0), 1 + d.quantity), false)
    else (OrderRequest(id, bot, symbol, side, LIMIT, 100.0, 0), true)
  }

  /** Order meets that description and nothing else does; limit prices stay within 2% of 100. */
  lemma OrderMix(botIndex: nat, seqNo: nat, symbol: string, d: Draw, req: OrderRequest, isCancel: bool)
    requires ValidDraw(d)
    ensures OrderAsDrawn(req, isCancel, botIndex, seqNo, symbol, d) <==>
            (req, isCancel) == Order(botIndex, seqNo, symbol, d)
    ensures OrderAsDrawn(req, isCancel, botIndex, seqNo, symbol, d) ==>
            req.quantity <= 10 && (req.orderType.LIMIT? ==> 98.0 <= req.price <= 102.0)
  {
    var (o, _) := Order(botIndex, seqNo, symbol, d);
    if OrderAsDrawn(req, isCancel, botIndex, seqNo, symbol, d) {
      assert req.quantity == o.quantity && req.price == o.price;
      assert req.side == o.side && req.orderType == o.orderType;
    }
  }

  /** Cancel probes must be rejected, every other order filled at least in part. */
  predicate Verdict(isCancel: bool, status: string) {
    if isCancel then status == "REJECTED" else status == "FILLED" || status == "PARTIALLY_FILLED"
  }

  /** The answer to a unary call: an engine error or a response. */
  datatype Answer = Failed(message: string) | Answered(response: OrderResponse)

  // ---------------------------------------------------------------------------------------------------------------
  // One bot
  // ---------------------------------------------------------------------------------------------------------------

  datatype PendingEntry = PendingEntry(sentNs: nat, isCancel: bool)

  /** History of an order handed to the stream. */
  datatype SentOrder = SentOrder(seqNo: nat, request: OrderRequest, sentNs: nat, isCancel: bool)

  datatype Config = Config(testRunId: string, contestantId: string, symbol: string)

  /** History of a metric: the answer it was made from, when that was received, and in which run. */
  datatype Record = Record(metric: Metric, answer: Answer, recvNs: nat, cfg: Config)

  datatype Sender = Ready | Sending(orderId: string) | Closed
  datatype Receiver = Receiving | Holding(record: Record) | Finished

  /** The default of the fleet's Run for a missing symbol. */
  function WithDefaults(cfg: Config): (r: Config)
    ensures if cfg.symbol != "" then r == cfg else r == cfg.(symbol := "AAPL")
  {
    if cfg.symbol == "" then cfg.(symbol := "AAPL") else cfg
  }

  /** inserted, withdrawn and recorded are history. unary is set when the stream could not be opened. */
  datatype Bot = Bot(
    index: nat,
    unary: bool,
    seqNo: nat,
    pending: map<string, PendingEntry>,
    sender: Sender,
    receiver: Receiver,
    inserted: map<string, SentOrder>,
    withdrawn: set<string>,
    recorded: seq<Record>)

  function NewBot(index: nat, unary: bool): Bot {
    Bot(index, unary, 0, map[], Ready, Receiving, map[], {}, [])
  }

  datatype BotStep =
    | Tick(draw: Draw, sentNs: nat)
    | SendSucceeds
    | SendFails
    | ContextDone
    | Receive(response: OrderResponse, recvNs: nat)
    | Publish
    | StreamEnds
    | UnaryOrder(draw: Draw, sentNs: nat, answer: Answer, recvNs: nat)

  predicate BotEnabled(b: Bot, step: BotStep) {
    match step
    case Tick(d, _) => !b.unary && b.sender.Ready? && ValidDraw(d)
    case SendSucceeds => b.sender.Sending?
    case SendFails => b.sender.Sending?
    case ContextDone => b.sender.Ready? && (b.unary ==> b.receiver.Receiving?)
    case Receive(_, _) => !b.unary && b.receiver.Receiving?
    case Publish => b.receiver.Holding?
    case StreamEnds => !b.unary && b.receiver.Receiving?
    case UnaryOrder(d, _, _, _) => b.unary && b.sender.Ready? && b.receiver.Receiving? && ValidDraw(d)
  }

  /** The metric of a reply taken off the stream. */
  function StreamMetric(cfg: Config, b: Bot, entry: PendingEntry, resp: OrderResponse, recvNs: nat): Metric {
    var ok := Verdict(entry.isCancel, resp.status);
    Metric(cfg.testRunId, cfg.contestantId, BotId(b.index), resp.orderId, entry.sentNs, recvNs, resp.timestampNs, ok,
      if ok then "" else "WRONG_STATUS:" + resp.status)
  }

  /** The metric of a unary call; a failed call counts as incorrect. */
  function UnaryMetric(cfg: Config, b: Bot, order: SentOrder, answer: Answer, recvNs: nat): Metric {
    match answer
    case Failed(message) =>
      Metric(cfg.testRunId, cfg.contestantId, BotId(b.index), order.request.orderId, order.sentNs, recvNs, 0, false,
        message)
    case Answered(resp) =>
      var ok := Verdict(order.isCancel, resp.status);
      Metric(cfg.testRunId, cfg.contestantId, BotId(b.index), order.request.orderId, order.sentNs, recvNs,
        resp.timestampNs, ok, if ok then "" else "WRONG_STATUS:" + resp.status)
  }

  function BotNext(cfg: Config, b: Bot, step: BotStep): Bot
    requires BotEnabled(b, step)
  {
    match step
    case Tick(d, sentNs) =>
      var (req, isCancel) := Order(b.index, b.seqNo + 1, cfg.symbol, d);
      b.(seqNo := b.seqNo + 1,
         pending := b.pending[req.orderId := PendingEntry(sentNs, isCancel)],
         sender := Sending(req.orderId),
         inserted := b.inserted[req.orderId := SentOrder(b.seqNo + 1, req, sentNs, isCancel)])
    case SendSucceeds => b.(sender := Ready)
    case SendFails =>
      b.(pending := b.pending - {b.sender.orderId},
         sender := Closed,
         withdrawn := b.withdrawn + ({b.sender.orderId} * b.pending.Keys))
    case ContextDone =>
      if b.unary then b.(sender := Closed, receiver := Finished) else b.(sender := Closed)
    case Receive(resp, recvNs) =>
      if resp.orderId in b.pending then
        b.(pending := b.pending - {resp.orderId},
           receiver := Holding(Record(StreamMetric(cfg, b, b.pending[resp.orderId], resp, recvNs),
                                      Answered(resp), recvNs, cfg)))
      else b
    case Publish => b.(receiver := Receiving, recorded := b.recorded + [b.receiver.record])
    case StreamEnds => b.(receiver := Finished)
    case UnaryOrder(d, sentNs, answer, recvNs) =>
      var (req, isCancel) := Order(b.index, b.seqNo + 1, cfg.symbol, d);
      var order := SentOrder(b.seqNo + 1, req, sentNs, isCancel);
      b.(seqNo := b.seqNo + 1,
         inserted := b.inserted[req.orderId := order],
         receiver := Holding(Record(UnaryMetric(cfg, b, order, answer, recvNs), answer, recvNs, cfg)))
  }

  predicate Done(b: Bot) {
    b.sender.Closed? && b.receiver.Finished?
  }

  // ---------------------------------------------------------------------------------------------------------------
  // What every step of a bot keeps
  // ---------------------------------------------------------------------------------------------------------------

  function OrderIdOf(r: Record): string {
    r.metric.orderId
  }

  /** Metrics taken off the pending map, published or about to be. */
  function Taken(b: Bot): seq<Record> {
    if b.receiver.Holding? then b.recorded + [b.receiver.record] else b.recorded
  }

  ghost predicate DistinctOrders(rs: seq<Record>) {
    forall i, j :: 0 <= i < j < |rs| ==> OrderIdOf(rs[i]) != OrderIdOf(rs[j])
  }

  ghost function OrderIds(rs: seq<Record>): set<string> {
    set r | r in rs :: OrderIdOf(r)
  }

  /** A metric reports one order of this bot: its own sent time, and the verdict its kind of order calls for. */
  ghost predicate ReportsItsOrder(b: Bot, r: Record) {
    var m := r.metric;
    && m.testRunId == r.cfg.testRunId && m.contestantId == r.cfg.contestantId && m.clientId == BotId(b.index)
    && m.recvTimeNs == r.recvNs
    && m.engineTimeNs == (if r.answer.Answered? then r.answer.response.timestampNs else 0)
    && m.orderId in b.inserted
    && m.sentTimeNs == b.inserted[m.orderId].sentNs
    && (r.answer.Answered? ==> m.isCorrect == Verdict(b.inserted[m.orderId].isCancel, r.answer.response.status))
    && (r.answer.Failed? ==> !m.isCorrect)
    && (r.answer.Answered? ==> (m.isCorrect <==> m.errorCode == ""))
    && (!b.unary ==> r.answer.Answered? && r.answer.response.orderId == m.orderId)
  }

  /** One order per sequence number, under the id that number gives. */
  ghost predicate IdsIssued(b: Bot) {
    && |b.inserted| == b.seqNo
    && forall id :: id in b.inserted ==>
         1 <= b.inserted[id].seqNo <= b.seqNo && id == OrderId(b.index, b.inserted[id].seqNo)
  }

  ghost predicate Partition(all: set<string>, a: set<string>, b: set<string>, c: set<string>) {
    all == a + b + c && a !! b && a !! c && b !! c
  }

  /** Every inserted order is in exactly one place: still pending, withdrawn by the failed send, or taken once. */
  ghost predicate Accounted(b: Bot) {
    && Partition(b.inserted.Keys, b.pending.Keys, b.withdrawn, OrderIds(Taken(b)))
    && DistinctOrders(Taken(b))
  }

  ghost predicate EntriesAgree(b: Bot) {
    && (forall id :: id in b.pending ==>
          id in b.inserted && b.pending[id] == PendingEntry(b.inserted[id].sentNs, b.inserted[id].isCancel))
    && (forall id :: id in b.inserted ==> b.inserted[id].request.orderId == id)
    && (b.sender.Sending? ==> b.sender.orderId in b.inserted)
    && (b.unary ==> b.pending == map[] && b.withdrawn == {} && !b.sender.Sending?)
  }

  ghost predicate AllReport(b: Bot) {
    forall r :: r in Taken(b) ==> ReportsItsOrder(b, r)
  }

  ghost predicate BotOk(b: Bot) {
    IdsIssued(b) && Accounted(b) && EntriesAgree(b) && AllReport(b)
  }

  lemma NewBotOk(index: nat, unary: bool)
    ensures BotOk(NewBot(index, unary))
  {
  }

  /** The next order id has not been used. */
  lemma NextIdIsFresh(b: Bot)
    requires IdsIssued(b)
    ensures OrderId(b.index, b.seqNo + 1) !in b.inserted
  {
    var id := OrderId(b.index, b.seqNo + 1);
    if id in b.inserted {
      OrderIdInjective(b.index, b.seqNo + 1, b.index, b.inserted[id].seqNo);
    }
  }

  /** b' has issued one more order than b. */
  ghost predicate IssuesOneMore(b: Bot, b': Bot, id: string) {
    && id !in b.inserted && id in b'.inserted
    && b'.inserted == b.inserted[id := b'.inserted[id]]
    && b'.index == b.index && b'.unary == b.unary && b'.seqNo == b.seqNo + 1
    && b'.inserted[id].request.orderId == id && b'.inserted[id].seqNo == b'.seqNo
  }

  lemma IssuedAfter(b: Bot, b': Bot, id: string)
    requires IdsIssued(b) && IssuesOneMore(b, b', id) && id == OrderId(b.index, b.seqNo + 1)
    ensures IdsIssued(b')
  {
    hide OrderId;
    InsertSize(b.inserted, id, b'.inserted[id]);
  }

  /** What was taken stays a faithful report as long as the orders it reports stay as they were. */
  lemma ReportsStay(b: Bot, b': Bot)
    requires AllReport(b) && b'.index == b.index && b'.unary == b.unary
    requires forall id :: id in b.inserted ==> id in b'.inserted && b'.inserted[id] == b.inserted[id]
    ensures forall r :: r in Taken(b) ==> ReportsItsOrder(b', r)
  {
    forall r | r in Taken(b)
      ensures ReportsItsOrder(b', r)
    {
      assert ReportsItsOrder(b, r);
    }
  }

  lemma TickAccounts(b: Bot, b': Bot, id: string, entry: PendingEntry)
    requires Accounted(b) && IssuesOneMore(b, b', id) && id !in b.inserted
    requires b'.pending == b.pending[id := entry] && b'.withdrawn == b.withdrawn && Taken(b') == Taken(b)
    ensures Accounted(b')
  {
    assert b'.pending.Keys == b.pending.Keys + {id};
    assert b'.inserted.Keys == b.inserted.Keys + {id};
  }

  /** What a tick does, apart from how the order was built. */
  lemma TickFrame(cfg: Config, b: Bot, d: Draw, sentNs: nat)
    requires BotEnabled(b, Tick(d, sentNs))
    ensures var b', id := BotNext(cfg, b, Tick(d, sentNs)), OrderId(b.index, b.seqNo + 1);
      && id in b'.inserted && b'.inserted == b.inserted[id := b'.inserted[id]]
      && b'.index == b.index && b'.unary == b.unary && b'.seqNo == b.seqNo + 1
      && b'.inserted[id].request.orderId == id && b'.inserted[id].seqNo == b'.seqNo
      && b'.pending == b.pending[id := PendingEntry(b'.inserted[id].sentNs, b'.inserted[id].isCancel)]
      && b'.withdrawn == b.withdrawn && Taken(b') == Taken(b) && b'.sender == Sending(id) && !b'.unary
  {
  }

  lemma InsertedKeeps(b: Bot, b': Bot, id: string)
    requires BotOk(b) && IssuesOneMore(b, b', id) && id == OrderId(b.index, b.seqNo + 1)
    requires b'.pending == b.pending[id := PendingEntry(b'.inserted[id].sentNs, b'.inserted[id].isCancel)]
    requires b'.withdrawn == b.withdrawn && Taken(b') == Taken(b) && b'.sender == Sending(id) && !b'.unary
    ensures BotOk(b')
  {
    hide IdsIssued, Accounted, EntriesAgree, ReportsItsOrder, OrderId;
    IssuedAfter(b, b', id);
    TickAccounts(b, b', id, b'.pending[id]);
    EntriesAfterInsert(b, b', id);
    ReportsStay(b, b');
  }

  lemma EntriesAfterInsert(b: Bot, b': Bot, id: string)
    requires EntriesAgree(b) && IssuesOneMore(b, b', id)
    requires b'.pending == b.pending[id := PendingEntry(b'.inserted[id].sentNs, b'.inserted[id].isCancel)]
    requires b'.sender == Sending(id) && !b'.unary
    ensures EntriesAgree(b')
  {
  }

  lemma EntriesAfterReport(b: Bot, b': Bot, id: string)
    requires EntriesAgree(b) && IssuesOneMore(b, b', id)
    requires b'.pending == b.pending && b'.withdrawn == b.withdrawn && b'.sender == b.sender
    ensures EntriesAgree(b')
  {
  }

  lemma TickKeeps(cfg: Config, b: Bot, d: Draw, sentNs: nat)
    requires BotOk(b) && BotEnabled(b, Tick(d, sentNs))
    ensures BotOk(BotNext(cfg, b, Tick(d, sentNs)))
  {
    TickFrame(cfg, b, d, sentNs);
    NextIdIsFresh(b);
    InsertedKeeps(b, BotNext(cfg, b, Tick(d, sentNs)), OrderId(b.index, b.seqNo + 1));
  }

  lemma WithdrawAccounts(b: Bot, b': Bot, id: string)
    requires Accounted(b) && b'.inserted == b.inserted && Taken(b') == Taken(b)
    requires b'.pending == b.pending - {id} && b'.withdrawn == b.withdrawn + ({id} * b.pending.Keys)
    ensures Accounted(b')
  {
    assert b'.pending.Keys == b.pending.Keys - {id};
  }

  lemma SendFailsKeeps(cfg: Config, b: Bot)
    requires BotOk(b) && BotEnabled(b, SendFails)
    ensures BotOk(BotNext(cfg, b, SendFails))
  {
    var b' := BotNext(cfg, b, SendFails);
    assert Taken(b') == Taken(b);
    WithdrawAccounts(b, b', b.sender.orderId);
    ReportsStay(b, b');
  }

  /** A failed send closes the sender and its order is pending no longer: withdrawn, unless its reply was quicker. */
  lemma FailedSendWithdraws(cfg: Config, b: Bot)
    requires BotOk(b) && BotEnabled(b, SendFails)
    ensures var b', id := BotNext(cfg, b, SendFails), b.sender.orderId;
      && b'.sender.Closed? && id !in b'.pending && Taken(b') == Taken(b)
      && (id in b'.withdrawn || id in OrderIds(Taken(b')))
  {
    hide OrderId, IdsIssued, ReportsItsOrder, OrderIds;
  }

  lemma OrderIdsSnoc(rs: seq<Record>, r: Record)
    ensures OrderIds(rs + [r]) == OrderIds(rs) + {OrderIdOf(r)}
  {
    var both := rs + [r];
    assert forall x :: x in both <==> x in rs || x == r;
  }

  /** Taking one more order whose id was not taken before. */
  lemma TakeOneMore(rs: seq<Record>, r: Record)
    requires DistinctOrders(rs) && OrderIdOf(r) !in OrderIds(rs)
    ensures DistinctOrders(rs + [r])
    ensures OrderIds(rs + [r]) == OrderIds(rs) + {OrderIdOf(r)}
  {
    OrderIdsSnoc(rs, r);
    forall i | 0 <= i < |rs|
      ensures OrderIdOf(rs[i]) != OrderIdOf(r)
    {
      assert rs[i] in rs;
    }
  }

  lemma ReceiveAccounts(b: Bot, b': Bot, r: Record)
    requires Accounted(b) && OrderIdOf(r) in b.pending
    requires b'.inserted == b.inserted && b'.withdrawn == b.withdrawn
    requires b'.pending == b.pending - {OrderIdOf(r)} && Taken(b') == Taken(b) + [r]
    ensures Accounted(b')
  {
    assert b'.pending.Keys == b.pending.Keys - {OrderIdOf(r)};
    TakeOneMore(Taken(b), r);
  }

  lemma ReportsWithOneMore(b': Bot, rs: seq<Record>, r: Record)
    requires Taken(b') == rs + [r] && ReportsItsOrder(b', r)
    requires forall x :: x in rs ==> ReportsItsOrder(b', x)
    ensures AllReport(b')
  {
  }

  lemma ReceiveKeeps(cfg: Config, b: Bot, resp: OrderResponse, recvNs: nat)
    requires BotOk(b) && BotEnabled(b, Receive(resp, recvNs))
    ensures BotOk(BotNext(cfg, b, Receive(resp, recvNs)))
  {
    var b' := BotNext(cfg, b, Receive(resp, recvNs));
    if resp.orderId in b.pending {
      var r := b'.receiver.record;
      ReceiveAccounts(b, b', r);
      ReportsStay(b, b');
      ReportsWithOneMore(b', Taken(b), r);
    }
  }

  lemma UnaryAccounts(b: Bot, b': Bot, r: Record)
    requires Accounted(b) && IssuesOneMore(b, b', OrderIdOf(r))
    requires b'.pending == b.pending && b'.withdrawn == b.withdrawn && Taken(b') == Taken(b) + [r]
    ensures Accounted(b')
  {
    assert b'.inserted.Keys == b.inserted.Keys + {OrderIdOf(r)};
    TakeOneMore(Taken(b), r);
  }

  /** What a unary order does, apart from how it was built. */
  lemma UnaryFrame(cfg: Config, b: Bot, d: Draw, sentNs: nat, answer: Answer, recvNs: nat)
    requires BotEnabled(b, UnaryOrder(d, sentNs, answer, recvNs))
    ensures var b', id := BotNext(cfg, b, UnaryOrder(d, sentNs, answer, recvNs)), OrderId(b.index, b.seqNo + 1);
      && id in b'.inserted && b'.inserted == b.inserted[id := b'.inserted[id]]
      && b'.index == b.index && b'.unary == b.unary && b'.seqNo == b.seqNo + 1
      && b'.inserted[id].request.orderId == id && b'.inserted[id].seqNo == b'.seqNo
      && b'.receiver.Holding? && OrderIdOf(b'.receiver.record) == id && ReportsItsOrder(b', b'.receiver.record)
      && b'.pending == b.pending && b'.withdrawn == b.withdrawn && b'.sender == b.sender
      && Taken(b') == Taken(b) + [b'.receiver.record]
  {
  }

  lemma ReportedAtOnceKeeps(b: Bot, b': Bot, r: Record)
    requires BotOk(b) && IssuesOneMore(b, b', OrderIdOf(r)) && OrderIdOf(r) == OrderId(b.index, b.seqNo + 1)
    requires b'.pending == b.pending && b'.withdrawn == b.withdrawn && b'.sender == b.sender
    requires Taken(b') == Taken(b) + [r] && ReportsItsOrder(b', r)
    ensures BotOk(b')
  {
    hide IdsIssued, Accounted, EntriesAgree, ReportsItsOrder, OrderId;
    IssuedAfter(b, b', OrderIdOf(r));
    EntriesAfterReport(b, b', OrderIdOf(r));
    UnaryAccounts(b, b', r);
    ReportsStay(b, b');
    ReportsWithOneMore(b', Taken(b), r);
  }

  lemma UnaryKeeps(cfg: Config, b: Bot, d: Draw, sentNs: nat, answer: Answer, recvNs: nat)
    requires BotOk(b) && BotEnabled(b, UnaryOrder(d, sentNs, answer, recvNs))
    ensures BotOk(BotNext(cfg, b, UnaryOrder(d, sentNs, answer, recvNs)))
  {
    var b' := BotNext(cfg, b, UnaryOrder(d, sentNs, answer, recvNs));
    UnaryFrame(cfg, b, d, sentNs, answer, recvNs);
    NextIdIsFresh(b);
    ReportedAtOnceKeeps(b, b', b'.receiver.record);
  }

  lemma QuietFrame(cfg: Config, b: Bot, step: BotStep)
    requires BotEnabled(b, step)
    requires step.SendSucceeds? || step.ContextDone? || step.Publish? || step.StreamEnds?
    ensures var b' := BotNext(cfg, b, step);
      && b' == b.(sender := b'.sender, receiver := b'.receiver, recorded := b'.recorded)
      && Taken(b') == Taken(b) && (b'.sender.Sending? ==> b'.sender == b.sender)
  {
  }

  lemma UnchangedKeeps(b: Bot, b': Bot)
    requires BotOk(b) && b' == b.(sender := b'.sender, receiver := b'.receiver, recorded := b'.recorded)
    requires Taken(b') == Taken(b) && (b'.sender.Sending? ==> b'.sender == b.sender)
    ensures BotOk(b')
  {
    ReportsStay(b, b');
  }

  lemma QuietKeeps(cfg: Config, b: Bot, step: BotStep)
    requires BotOk(b) && BotEnabled(b, step)
    requires step.SendSucceeds? || step.ContextDone? || step.Publish? || step.StreamEnds?
    ensures BotOk(BotNext(cfg, b, step))
  {
    QuietFrame(cfg, b, step);
    UnchangedKeeps(b, BotNext(cfg, b, step));
  }

  /** In every interleaving of sends, failed sends and replies, whatever the engine answers. */
  lemma BotStepKeeps(cfg: Config, b: Bot, step: BotStep)
    requires BotOk(b) && BotEnabled(b, step)
    ensures BotOk(BotNext(cfg, b, step))
  {
    match step
    case Tick(d, sentNs) => TickKeeps(cfg, b, d, sentNs);
    case SendFails => SendFailsKeeps(cfg, b);
    case Receive(resp, recvNs) => ReceiveKeeps(cfg, b, resp, recvNs);
    case UnaryOrder(d, sentNs, answer, recvNs) => UnaryKeeps(cfg, b, d, sentNs, answer, recvNs);
    case _ => QuietKeeps(cfg, b, step);
  }

  lemma {:induction false} DistinctOrderCount(rs: seq<Record>)
    requires DistinctOrders(rs)
    ensures |OrderIds(rs)| == |rs|
  {
    if rs == [] {
      assert OrderIds(rs) == {};
    } else {
      var t, r := rs[..|rs| - 1], rs[|rs| - 1];
      DistinctOrderCount(t);
      assert rs == t + [r];
      OrderIdsSnoc(t, r);
      assert forall i :: 0 <= i < |t| ==> OrderIdOf(t[i]) == OrderIdOf(rs[i]) != OrderIdOf(r);
      assert OrderIdOf(r) !in OrderIds(t);
    }
  }

  /** Conservation: orders inserted = metrics recorded or in hand + still pending + withdrawn by a failed send. */
  lemma OrdersConserved(b: Bot)
    requires BotOk(b)
    ensures b.seqNo == |Taken(b)| + |b.pending| + |b.withdrawn|
    ensures Done(b) ==> Taken(b) == b.recorded
  {
    DistinctOrderCount(Taken(b));
    assert |b.inserted.Keys| == b.seqNo;
  }

  /** One turn of the receive loop. */
  function AfterReply(cfg: Config, b: Bot, resp: OrderResponse, recvNs: nat): (b': Bot)
    requires !b.unary && b.receiver.Receiving?
    ensures !b'.unary && b'.receiver.Receiving?
  {
    var b' := BotNext(cfg, b, Receive(resp, recvNs));
    if b'.receiver.Holding? then BotNext(cfg, b', Publish) else b'
  }

  /** The receive loop over a list of replies, each with the time it is received. */
  function AfterReplies(cfg: Config, b: Bot, replies: seq<(OrderResponse, nat)>): Bot
    requires !b.unary && b.receiver.Receiving?
    decreases |replies|
  {
    if replies == [] then b
    else AfterReplies(cfg, AfterReply(cfg, b, replies[0].0, replies[0].1), replies[1..])
  }

  ghost function ReplyIds(replies: seq<(OrderResponse, nat)>): set<string> {
    if replies == [] then {} else {replies[0].0.orderId} + ReplyIds(replies[1..])
  }

  /** Between b and b' exactly the pending orders among ids were recorded, once each, and are pending no longer. */
  ghost predicate Answering(b: Bot, b': Bot, ids: set<string>) {
    var answered := ids * b.pending.Keys;
    && b'.pending.Keys == b.pending.Keys - answered
    && OrderIds(b'.recorded) == OrderIds(b.recorded) + answered
    && |b'.recorded| == |b.recorded| + |answered| && b.recorded <= b'.recorded
    && b'.inserted == b.inserted && b'.withdrawn == b.withdrawn
  }

  /** A reply to a pending order is taken at once: one more metric, one pending order fewer, nothing else. */
  lemma ReplyIsTaken(cfg: Config, b: Bot, resp: OrderResponse, recvNs: nat) returns (r: Record)
    requires !b.unary && b.receiver.Receiving? && resp.orderId in b.pending
    ensures OrderIdOf(r) == resp.orderId && r.answer == Answered(resp) && r.recvNs == recvNs
    ensures AfterReply(cfg, b, resp, recvNs)
         == b.(pending := b.pending - {resp.orderId}, recorded := b.recorded + [r])
  {
    r := BotNext(cfg, b, Receive(resp, recvNs)).receiver.record;
  }

  lemma NothingAnswered(b: Bot)
    ensures Answering(b, b, {})
  {
    hide OrderIds;
    assert {} * b.pending.Keys == {};
  }

  lemma AnsweringOne(cfg: Config, b: Bot, resp: OrderResponse, recvNs: nat)
    requires !b.unary && b.receiver.Receiving?
    ensures Answering(b, AfterReply(cfg, b, resp, recvNs), {resp.orderId})
  {
    if resp.orderId in b.pending {
      var r := ReplyIsTaken(cfg, b, resp, recvNs);
      hide OrderIds, AfterReply, OrderIdOf;
      OrderIdsSnoc(b.recorded, r);
      assert {resp.orderId} * b.pending.Keys == {resp.orderId};
      assert (b.pending - {resp.orderId}).Keys == b.pending.Keys - {resp.orderId};
    } else {
      assert AfterReply(cfg, b, resp, recvNs) == b;
      hide OrderIds, AfterReply;
      assert {resp.orderId} * b.pending.Keys == {};
    }
  }

  lemma AnsweringBoth(b: Bot, b1: Bot, b2: Bot, ids1: set<string>, ids2: set<string>)
    requires Answering(b, b1, ids1) && Answering(b1, b2, ids2)
    ensures Answering(b, b2, ids1 + ids2)
  {
    hide OrderIds;
    RemovedInTwo(b.pending.Keys, b1.pending.Keys, b2.pending.Keys, ids1, ids2);
    AddedInTwo(OrderIds(b.recorded), ids1 * b.pending.Keys, ids2 * b1.pending.Keys);
  }

  /**
   * Whatever replies arrive, in whatever order and however often: exactly the pending orders among their ids are
   * recorded, once each, and exactly those are pending no longer.
   */
  lemma {:induction false} RepliesTaken(cfg: Config, b: Bot, replies: seq<(OrderResponse, nat)>)
    requires !b.unary && b.receiver.Receiving?
    ensures Answering(b, AfterReplies(cfg, b, replies), ReplyIds(replies))
    decreases |replies|
  {
    if replies == [] {
      NothingAnswered(b);
    } else {
      hide Answering, AfterReply;
      var (resp, recvNs) := replies[0];
      var b' := AfterReply(cfg, b, resp, recvNs);
      AnsweringOne(cfg, b, resp, recvNs);
      RepliesTaken(cfg, b', replies[1..]);
      AnsweringBoth(b, b', AfterReplies(cfg, b, replies), {resp.orderId}, ReplyIds(replies[1..]));
    }
  }

  /** A reply that repeats an id, invents one, or bears another bot's id changes nothing. */
  lemma ForeignReplyIgnored(cfg: Config, b: Bot, resp: OrderResponse, recvNs: nat, j: nat, k: nat)
    requires BotOk(b) && BotEnabled(b, Receive(resp, recvNs))
    requires resp.orderId !in b.inserted || resp.orderId in OrderIds(Taken(b))
          || (resp.orderId == OrderId(j, k) && j != b.index)
    ensures BotNext(cfg, b, Receive(resp, recvNs)) == b
  {
    if resp.orderId in b.inserted && resp.orderId == OrderId(j, k) {
      OrderIdInjective(b.index, b.inserted[resp.orderId].seqNo, j, k);
    }
  }

  // ---------------------------------------------------------------------------------------------------------------
  // Against the reference engine
  // ---------------------------------------------------------------------------------------------------------------

  /** The reply is PlaceOrder's to a request this bot has inserted. */
  ghost predicate FromReferenceEngine(b: Bot, step: BotStep) {
    step.Receive? ==>
      var resp := step.response;
      resp.orderId in b.inserted
      && resp == PlaceOrder(b.inserted[resp.orderId].request, resp.executionPrice, resp.timestampNs)
  }

  /** Orders are complete, and a cancel probe is exactly an order for nothing. */
  ghost predicate OrdersAsBuilt(cfg: Config, b: Bot) {
    forall id :: id in b.inserted ==>
      var order := b.inserted[id];
      && order.request.symbol == cfg.symbol && order.request.clientId != "" && id != ""
      && (order.isCancel <==> order.request.quantity == 0)
  }

  ghost predicate AllCorrect(b: Bot) {
    forall r :: r in Taken(b) ==> r.metric.isCorrect
  }

  lemma IdsNotEmpty(i: nat, seqNo: nat)
    ensures BotId(i) != "" && OrderId(i, seqNo) != ""
  {
    assert |BotId(i)| >= 4 && |OrderId(i, seqNo)| >= 4;
  }

  lemma BuiltOrder(cfg: Config, index: nat, seqNo: nat, d: Draw)
    requires ValidDraw(d)
    ensures var (req, isCancel) := Order(index, seqNo, cfg.symbol, d);
      && req.symbol == cfg.symbol && req.clientId != "" && req.orderId == OrderId(index, seqNo) != ""
      && (isCancel <==> req.quantity == 0)
  {
    var (req, isCancel) := Order(index, seqNo, cfg.symbol, d);
    hide OrderId, BotId, Order;
    OrderMix(index, seqNo, cfg.symbol, d, req, isCancel);
    IdsNotEmpty(index, seqNo);
  }

  lemma OrdersAsBuiltKept(cfg: Config, b: Bot, step: BotStep)
    requires OrdersAsBuilt(cfg, b) && BotEnabled(b, step)
    ensures OrdersAsBuilt(cfg, BotNext(cfg, b, step))
  {
    if step.Tick? || step.UnaryOrder? {
      BuiltOrder(cfg, b.index, b.seqNo + 1, step.draw);
      hide OrderId, BotId, Order, Verdict;
    }
  }

  /** What StreamOrders answers to requests of this bot are replies of the reference engine, however many it answers. */
  lemma StreamIsFromReferenceEngine(b: Bot, requests: seq<OrderRequest>, turns: seq<Turn>,
      responses: seq<OrderResponse>, i: nat, recvNs: nat)
    requires |turns| == |requests| && IsStreamOf(requests, turns, responses) && i < |responses|
    requires forall k :: 0 <= k < |requests| ==>
               requests[k].orderId in b.inserted && b.inserted[requests[k].orderId].request == requests[k]
    ensures FromReferenceEngine(b, Receive(responses[i], recvNs))
  {
    assert responses[i].orderId == requests[i].orderId;
  }

  /** The matcher's reject rule and the verdict rule agree on every order the bots build. */
  lemma ReferenceVerdict(cfg: Config, b: Bot, resp: OrderResponse)
    requires BotOk(b) && OrdersAsBuilt(cfg, b) && cfg.symbol != "" && resp.orderId in b.pending
    requires resp == PlaceOrder(b.inserted[resp.orderId].request, resp.executionPrice, resp.timestampNs)
    ensures Verdict(b.pending[resp.orderId].isCancel, resp.status)
  {
    assert b.inserted[resp.orderId].request.orderId == resp.orderId;
  }

  lemma AllCorrectKept(cfg: Config, b: Bot, step: BotStep)
    requires BotOk(b) && OrdersAsBuilt(cfg, b) && AllCorrect(b) && !b.unary && cfg.symbol != ""
    requires BotEnabled(b, step) && FromReferenceEngine(b, step)
    ensures AllCorrect(BotNext(cfg, b, step))
  {
    hide OrderId, BotId, IdsIssued, Accounted, ReportsItsOrder;
    var b' := BotNext(cfg, b, step);
    if step.Receive? && step.response.orderId in b.pending {
      ReferenceVerdict(cfg, b, step.response);
      assert Taken(b') == Taken(b) + [b'.receiver.record];
    } else {
      assert Taken(b') == Taken(b);
    }
  }
}
