/** The trading gateway messages and the reference engine's decision. */
module Trading {

  datatype Side = BUY | SELL
  datatype OrderType = LIMIT | MARKET

  datatype OrderRequest = OrderRequest(
    orderId: string,
    clientId: string,
    symbol: string,
    side: Side,
    orderType: OrderType,
    price: real,
    quantity: nat)

  datatype OrderResponse = OrderResponse(
    orderId: string,
    clientId: string,
    symbol: string,
    status: string,
    executionPrice: real,
    filledQuantity: nat,
    timestampNs: nat)

  /** PlaceOrder of the reference engine, given the market price it draws and the time it answers. */
  function PlaceOrder(req: OrderRequest, drawnPrice: real, nowNs: nat): OrderResponse {
    if req.orderId == "" || req.clientId == "" || req.symbol == "" || req.quantity == 0 then
      OrderResponse(req.orderId, req.clientId, req.symbol, "REJECTED", 0.0, 0, nowNs)
    else
      OrderResponse(req.orderId, req.clientId, req.symbol, "FILLED",
        if req.orderType.LIMIT? then req.price else drawnPrice, req.quantity, nowNs)
  }

  /**
   * The reference engine fills complete orders in full, limit orders at their own price and market orders at the price
   * it draws, and rejects all others at no price; every answer names its order.
   */
  lemma EngineAnswers(req: OrderRequest, drawnPrice: real, nowNs: nat)
    ensures var resp := PlaceOrder(req, drawnPrice, nowNs);
      var complete := |req.orderId| > 0 && |req.clientId| > 0 && |req.symbol| > 0 && req.quantity > 0;
      && resp.orderId == req.orderId && resp.clientId == req.clientId && resp.symbol == req.symbol
      && resp.timestampNs == nowNs
      && (complete ==> resp.status == "FILLED" && resp.filledQuantity == req.quantity)
      && (complete && req.orderType.LIMIT? ==> resp.executionPrice == req.price)
      && (complete && req.orderType.MARKET? ==> resp.executionPrice == drawnPrice)
      && (!complete ==> resp.status == "REJECTED" && resp.filledQuantity == 0 && resp.executionPrice == 0.0)
  {
  }

  /** How one turn of the stream loop ends: with an answer, or with an error before or while sending it. */
  datatype Turn = Answers(drawnPrice: real, nowNs: nat) | ContextCancelled | SendFailed

  /** responses answers the requests in order, one each, up to the first turn that fails. */
  ghost predicate IsStreamOf(requests: seq<OrderRequest>, turns: seq<Turn>, responses: seq<OrderResponse>)
    requires |turns| == |requests|
  {
    && |responses| <= |requests|
    && (forall i :: 0 <= i < |responses| ==>
          turns[i].Answers? && responses[i] == PlaceOrder(requests[i], turns[i].drawnPrice, turns[i].nowNs))
    && (|responses| < |requests| ==> !turns[|responses|].Answers?)
  }

  /** StreamOrders of the reference engine over the requests a stream delivers. */
  method StreamOrders(requests: seq<OrderRequest>, turns: seq<Turn>) returns (responses: seq<OrderResponse>)
    requires |turns| == |requests|
    ensures IsStreamOf(requests, turns, responses)
  {
    responses := [];
    for i := 0 to |requests|
      invariant |responses| == i
      invariant forall j :: 0 <= j < i ==>
                  turns[j].Answers? && responses[j] == PlaceOrder(requests[j], turns[j].drawnPrice, turns[j].nowNs)
    {
      if !turns[i].Answers? {
        return;
      }
      responses := responses + [PlaceOrder(requests[i], turns[i].drawnPrice, turns[i].nowNs)];
    }
  }
}
