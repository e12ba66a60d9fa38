/** The broker gateway: the authoritative order map, and the snapshots it emits. */
module Gateway {
  import opened Basics
  import opened Orders
  import opened Queues

  /** An order map after a callback, and the snapshot taken under the lock, if any. */
  datatype Outcome = Outcome(orders: map<int, OrderData>, snapshot: Option<OrderData>)

  function NewOrder(id: int, req: OrderReq): OrderData
  {
    OrderData(id, req.symbol, req.exchange, req.source, req.action, req.quantity, 0.0, 0.0, 0.0, PendingSubmit, 0)
  }

  /** A new order has the request's fields and has traded, cost and failed nothing yet. */
  lemma NewOrderIs(id: int, req: OrderReq)
    ensures var d := NewOrder(id, req);
            && d.orderId == id && d.source == req.source && d.symbol == req.symbol && d.exchange == req.exchange
            && d.action == req.action && d.total == req.quantity && d.status == PendingSubmit && d.errorCode == 0
            && d.traded == 0.0 && d.avgPrice == 0.0 && Contribution(d) == Position(0.0, 0.0)
  {
    hide Contribution, Money;
    ContributionMeans(NewOrder(id, req));
  }

  /** send_order: an id that is already known is a modification, and leaves the map alone. */
  function OnSend(orders: map<int, OrderData>, id: int, req: OrderReq): Outcome
  {
    if id in orders then Outcome(orders, None)
    else Outcome(orders[id := NewOrder(id, req)], Some(NewOrder(id, req)))
  }

  function Replace(orders: map<int, OrderData>, d: OrderData): Outcome { Outcome(orders[d.orderId := d], Some(d)) }

  /** openOrder: a commission, once the broker knows it. */
  function OnOpen(orders: map<int, OrderData>, id: int, commission: Option<real>): Outcome
    requires id in orders ==> orders[id].orderId == id
  {
    if commission.None? || id !in orders then Outcome(orders, None)
    else Replace(orders, orders[id].(commission := commission.value))
  }

  /** orderStatus, with the broker's status name already looked up. */
  function OnStatus(orders: map<int, OrderData>, id: int, status: OrderStatus, filled: real, avgPrice: real): Outcome
    requires id in orders ==> orders[id].orderId == id
  {
    if id !in orders then Outcome(orders, None)
    else Replace(orders, orders[id].(status := status, traded := filled, avgPrice := avgPrice))
  }

  /** error: the code sticks to the order. */
  function OnError(orders: map<int, OrderData>, id: int, code: int): Outcome
    requires id in orders ==> orders[id].orderId == id
  {
    if id !in orders then Outcome(orders, None) else Replace(orders, orders[id].(errorCode := code))
  }

  function Emission(o: Outcome): seq<Event> { if o.snapshot.Some? then [OrderEvent(o.snapshot.value)] else [] }

  class IBApi {
    var orders: map<int, OrderData>
    var nextId: int
    const events: LBQueue<Event>

    predicate Valid()
      reads this
    {
      forall id :: id in orders ==> orders[id].orderId == id
    }

    constructor (events: LBQueue<Event>)
      ensures Valid() && orders == map[] && nextId == -1 && this.events == events
    {
      orders, nextId := map[], -1;
      this.events := events;
    }

    method NextValidId(id: int)
      modifies this`nextId
      ensures nextId == id
    {
      nextId := id;
    }

    /** Returns the id the order is placed under: a new one unless the request names one. */
    method SendOrder(req: OrderReq) returns (id: int)
      requires Valid()
      modifies this, events
      ensures Valid() && id == (if req.orderId.None? then old(nextId) else req.orderId.value)
      ensures nextId == if req.orderId.None? then old(nextId) + 1 else old(nextId)
      ensures orders == OnSend(old(orders), id, req).orders
      ensures events.items == old(events.items) + Emission(OnSend(old(orders), id, req))
    {
      if req.orderId.None? {
        id := nextId;
        nextId := nextId + 1;
      } else {
        id := req.orderId.value;
      }
      var data := NewOrder(id, req);
      var unknown := id !in orders;
      if unknown {
        orders := orders[id := data];
      }
      if unknown {
        events.WaitPush(OrderEvent(data));
      }
    }

    method OpenOrder(id: int, commission: Option<real>)
      requires Valid()
      modifies this`orders, events
      ensures Valid() && orders == OnOpen(old(orders), id, commission).orders
      ensures events.items == old(events.items) + Emission(OnOpen(old(orders), id, commission))
    {
      if commission.Some? {
        if id !in orders {
          return;
        }
        orders := orders[id := orders[id].(commission := commission.value)];
        events.WaitPush(OrderEvent(orders[id]));
      }
    }

    method OrderStatus(id: int, status: OrderStatus, filled: real, avgPrice: real)
      requires Valid()
      modifies this`orders, events
      ensures Valid() && orders == OnStatus(old(orders), id, status, filled, avgPrice).orders
      ensures events.items == old(events.items) + Emission(OnStatus(old(orders), id, status, filled, avgPrice))
    {
      if id !in orders {
        return;
      }
      orders := orders[id := orders[id].(status := status, traded := filled, avgPrice := avgPrice)];
      events.WaitPush(OrderEvent(orders[id]));
    }

    /** The error message goes out first, then the order it concerns. */
    method Error(id: int, code: int)
      requires Valid()
      modifies this`orders, events
      ensures Valid() && orders == OnError(old(orders), id, code).orders
      ensures events.items == old(events.items) + [OtherEvent(code)] + Emission(OnError(old(orders), id, code))
    {
      events.WaitPush(OtherEvent(code));
      if id in orders {
        orders := orders[id := orders[id].(errorCode := code)];
        events.WaitPush(OrderEvent(orders[id]));
      }
    }
  }
}
