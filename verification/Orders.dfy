/** Orders as the trading engine sees them. Prices and quantities are reals. */
module Orders {
  import opened Basics

  datatype Action = Buy | Sell

  datatype OrderStatus =
    | PendingSubmit | PendingCancel | PreSubmitted | Submitted
    | ApiCancelled | Cancelled | Filled | Inactive

  predicate IsActive(s: OrderStatus) { s in {PendingSubmit, PendingCancel, PreSubmitted, Submitted} }

  /** A request; an id is set only to modify an order. */
  datatype OrderReq = OrderReq(symbol: string, exchange: string, source: string, action: Action,
                               quantity: real, orderId: Option<int>)

  /** A snapshot of an order. */
  datatype OrderData = OrderData(orderId: int, symbol: string, exchange: string, source: string, action: Action,
                                 total: real, traded: real, avgPrice: real, commission: real,
                                 status: OrderStatus, errorCode: int)

  datatype Event = OrderEvent(data: OrderData) | TimerEvent(sec: int) | StopEvent | OtherEvent(tag: int)

  function SnapshotOf(e: Event): seq<OrderData> { if e.OrderEvent? then [e.data] else [] }

  /** The order snapshots among some events. */
  function OrderEvents(es: seq<Event>): seq<OrderData>
  {
    if es == [] then [] else SnapshotOf(es[0]) + OrderEvents(es[1..])
  }

  lemma {:induction false} OrderEventsConcat(a: seq<Event>, b: seq<Event>)
    ensures OrderEvents(a + b) == OrderEvents(a) + OrderEvents(b)
  {
    hide SnapshotOf;
    if a == [] {
      assert a + b == b;
    } else {
      assert (a + b)[1..] == a[1..] + b;
      OrderEventsConcat(a[1..], b);
      assert OrderEvents(a + b) == SnapshotOf(a[0]) + OrderEvents(a[1..] + b);
    }
  }

  // ---- position and cost

  datatype Position = Position(pos: real, cost: real)
  {
    function Plus(p: Position): Position { Position(pos + p.pos, cost + p.cost) }
  }

  const FLAT := Position(0.0, 0.0)

  function Money(quantity: real, price: real): real { quantity * price }

  function Signed(a: Action, x: real): real { if a == Sell then -x else x }

  /** What one order contributes to the position in its symbol: signed quantity, signed money, and fees. */
  function Contribution(d: OrderData): Position
  {
    Position(Signed(d.action, d.traded), Signed(d.action, Money(d.traded, d.avgPrice)) + d.commission)
  }

  /** Bought shares count for, sold ones against the position; the cost is what they cost at their average price, and fees. */
  lemma ContributionMeans(d: OrderData)
    ensures var c := Contribution(d);
            && c.pos == (match d.action case Buy => d.traded case Sell => -d.traded)
            && c.cost == c.pos * d.avgPrice + d.commission
  {
  }

  /** The position in a symbol, recomputed from the latest snapshot of every order. */
  ghost function Total(orders: map<int, OrderData>, symbol: string): Position
    decreases |orders|
  {
    if forall id :: id !in orders then FLAT
    else
      var id :| id in orders;
      var rest := Total(orders - {id}, symbol);
      if orders[id].symbol == symbol then rest.Plus(Contribution(orders[id])) else rest
  }

  /** The recomputation may start with any order. */
  lemma {:induction false} TotalFrom(orders: map<int, OrderData>, symbol: string, id: int)
    requires id in orders
    ensures var rest := Total(orders - {id}, symbol);
            Total(orders, symbol) == if orders[id].symbol == symbol then rest.Plus(Contribution(orders[id])) else rest
    decreases |orders|
  {
    var first :| first in orders && Total(orders, symbol) ==
      (var rest := Total(orders - {first}, symbol);
       if orders[first].symbol == symbol then rest.Plus(Contribution(orders[first])) else rest);
    if first != id {
      var a, b := orders - {first}, orders - {id};
      assert a - {id} == b - {first};
      assert a[id] == orders[id] && b[first] == orders[first];
      hide Total, Contribution;
      TotalFrom(a, symbol, id);
      TotalFrom(b, symbol, first);
      var rest := Total(a - {id}, symbol);
      var ca := if orders[id].symbol == symbol then Contribution(orders[id]) else FLAT;
      var cb := if orders[first].symbol == symbol then Contribution(orders[first]) else FLAT;
      assert Total(b, symbol) == rest.Plus(cb);
      assert Total(a, symbol) == rest.Plus(ca);
      assert Total(orders, symbol) == Total(a, symbol).Plus(cb);
    }
  }

  /** Replacing one snapshot changes the recomputed position by the difference of the contributions. */
  lemma TotalUpdate(orders: map<int, OrderData>, symbol: string, d: OrderData)
    ensures var was := if d.orderId in orders && orders[d.orderId].symbol == symbol
                       then Contribution(orders[d.orderId]) else FLAT;
            var now := if d.symbol == symbol then Contribution(d) else FLAT;
            var p, q := Total(orders, symbol), Total(orders[d.orderId := d], symbol);
            q.pos == p.pos - was.pos + now.pos && q.cost == p.cost - was.cost + now.cost
  {
    var updated := orders[d.orderId := d];
    TotalFrom(updated, symbol, d.orderId);
    if d.orderId in orders {
      TotalFrom(orders, symbol, d.orderId);
      assert updated - {d.orderId} == orders - {d.orderId};
    } else {
      assert updated - {d.orderId} == orders;
    }
  }
}
