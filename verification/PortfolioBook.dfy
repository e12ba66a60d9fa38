/** The portfolio: positions and costs kept incrementally from order snapshots, with the last event
    dispatched again whenever the queue stays empty. */
module PortfolioBook {
  import opened Basics
  import opened Orders
  import opened Queues

  /** Latest snapshot of every order, by algo and order id, and the position of every algo and symbol. */
  datatype Book = Book(active: map<string, map<int, OrderData>>, positions: map<string, map<string, Position>>)

  function OrdersOf(b: Book, algo: string): map<int, OrderData> { if algo in b.active then b.active[algo] else map[] }

  function PositionsOf(b: Book, algo: string): map<string, Position>
  {
    if algo in b.positions then b.positions[algo] else map[]
  }

  function PositionOf(b: Book, algo: string, symbol: string): Position
  {
    var m := PositionsOf(b, algo);
    if symbol in m then m[symbol] else FLAT
  }

  /** order_data_cb on values. */
  function Apply(b: Book, d: OrderData): Book
  {
    var orders := OrdersOf(b, d.source);
    var dQty, dCost, dComm := d.traded, Money(d.traded, d.avgPrice), d.commission;
    var (q, c, m) :=
      if d.orderId in orders then
        var was := orders[d.orderId];
        (dQty - was.traded, dCost - Money(was.traded, was.avgPrice), dComm - was.commission)
      else (dQty, dCost, dComm);
    var (sq, sc) := if d.action == Sell then (q * -1.0, c * -1.0) else (q, c);
    var p := PositionOf(b, d.source, d.symbol);
    Book(b.active[d.source := orders[d.orderId := d]],
         b.positions[d.source := PositionsOf(b, d.source)[d.symbol := Position(p.pos + sq, p.cost + sc + m)]])
  }

  function Dispatch(b: Book, e: Event): Book { if e.OrderEvent? then Apply(b, e.data) else b }

  function ApplyAll(b: Book, ds: seq<OrderData>): Book
  {
    if ds == [] then b else Apply(ApplyAll(b, ds[..|ds| - 1]), ds[|ds| - 1])
  }

  /** Every position is what a recomputation from the latest snapshots gives. */
  ghost predicate Consistent(b: Book)
  {
    forall algo, symbol :: PositionOf(b, algo, symbol) == Total(OrdersOf(b, algo), symbol)
  }

  /** An order keeps its symbol and side. */
  predicate SameOrder(x: OrderData, y: OrderData) { x.symbol == y.symbol && x.action == y.action }

  predicate KeepsOrder(b: Book, d: OrderData)
  {
    d.orderId in OrdersOf(b, d.source) ==> SameOrder(OrdersOf(b, d.source)[d.orderId], d)
  }

  lemma ApplyOrders(b: Book, d: OrderData, algo: string)
    ensures OrdersOf(Apply(b, d), algo) == if algo == d.source then OrdersOf(b, algo)[d.orderId := d] else OrdersOf(b, algo)
  {
  }

  lemma ApplyPosition(b: Book, d: OrderData, algo: string, symbol: string)
    ensures var p, q := PositionOf(b, algo, symbol), PositionOf(Apply(b, d), algo, symbol);
            if algo != d.source || symbol != d.symbol then q == p
            else
              var orders := OrdersOf(b, algo);
              var was := if d.orderId in orders then Contribution(orders[d.orderId].(action := d.action)) else FLAT;
              q.pos == p.pos - was.pos + Contribution(d).pos && q.cost == p.cost - was.cost + Contribution(d).cost
  {
    hide Money;
  }

  /** The callback goes by the new snapshot alone: what it holds of the order must be of the same symbol and
      side, or have no bearing on the position. */
  predicate Replaceable(b: Book, d: OrderData)
  {
    d.orderId in OrdersOf(b, d.source) ==>
      var was := OrdersOf(b, d.source)[d.orderId];
      SameOrder(was, d) || (was.traded == 0.0 && (was.symbol == d.symbol || was.commission == 0.0))
  }

  /** One snapshot changes the recomputation and the incremental position by the same amount, or not. */
  lemma ApplyDifference(b: Book, d: OrderData, algo: string, symbol: string)
    requires Consistent(b)
    ensures var was := if d.orderId in OrdersOf(b, d.source) then Some(OrdersOf(b, d.source)[d.orderId]) else None;
            var counted := if was.Some? && was.value.symbol == symbol then Contribution(was.value) else FLAT;
            var removed := if was.Some? && d.symbol == symbol then Contribution(was.value.(action := d.action)) else FLAT;
            PositionOf(Apply(b, d), algo, symbol) == Total(OrdersOf(Apply(b, d), algo), symbol)
            <==> (algo == d.source ==> counted == removed)
  {
    hide Apply, PositionOf, Total, Contribution;
    ApplyOrders(b, d, algo);
    ApplyPosition(b, d, algo, symbol);
    assert PositionOf(b, algo, symbol) == Total(OrdersOf(b, algo), symbol);
    if algo == d.source { TotalUpdate(OrdersOf(b, algo), symbol, d); }
  }

  lemma NoBearing(was: OrderData, action: Action)
    ensures Contribution(was) == Contribution(was.(action := action)) <==> was.action == action || was.traded == 0.0
    ensures Contribution(was) == FLAT <==> was.traded == 0.0 && was.commission == 0.0
  {
    if was.traded == 0.0 { assert Money(was.traded, was.avgPrice) == 0.0; }
    hide Money;
  }

  /** One snapshot keeps the incremental position and cost equal to the recomputation exactly when it may
      replace what is held. */
  lemma PortfolioExact(b: Book, d: OrderData)
    requires Consistent(b)
    ensures Consistent(Apply(b, d)) <==> Replaceable(b, d)
  {
    hide Apply, PositionOf, Total, Contribution;
    var orders := OrdersOf(b, d.source);
    if d.orderId in orders {
      NoBearing(orders[d.orderId], d.action);
      NoBearing(orders[d.orderId].(action := d.action), d.action);
      ApplyDifference(b, d, d.source, d.symbol);
      ApplyDifference(b, d, d.source, orders[d.orderId].symbol);
    }
    if Replaceable(b, d) {
      forall algo, symbol
        ensures PositionOf(Apply(b, d), algo, symbol) == Total(OrdersOf(Apply(b, d), algo), symbol)
      {
        ApplyDifference(b, d, algo, symbol);
      }
    }
  }

  lemma ApplyConsistent(b: Book, d: OrderData)
    requires Consistent(b) && KeepsOrder(b, d)
    ensures Consistent(Apply(b, d))
  {
    hide Consistent, Apply;
    PortfolioExact(b, d);
  }

  /** An order of one share of A whose next snapshot names B: A keeps the share. */
  lemma ChangedSymbolIsInconsistent()
    ensures var first := OrderData(1, "A", "", "algo", Buy, 1.0, 1.0, 10.0, 0.0, Submitted, 0);
            var b := Apply(EMPTY, first);
            Consistent(b) && !Consistent(Apply(b, first.(symbol := "B")))
            && PositionOf(Apply(b, first.(symbol := "B")), "algo", "A").pos == 1.0
            && forall id :: id in OrdersOf(Apply(b, first.(symbol := "B")), "algo") ==>
                 OrdersOf(Apply(b, first.(symbol := "B")), "algo")[id].symbol == "B"
  {
    var first := OrderData(1, "A", "", "algo", Buy, 1.0, 1.0, 10.0, 0.0, Submitted, 0);
    var b := Apply(EMPTY, first);
    EmptyConsistent();
    PortfolioExact(EMPTY, first);
    PortfolioExact(b, first.(symbol := "B"));
  }

  /** A snapshot that the book already holds changes nothing. */
  lemma ApplyHeld(b: Book, d: OrderData)
    requires d.orderId in OrdersOf(b, d.source) && OrdersOf(b, d.source)[d.orderId] == d
    requires d.source in b.active && d.source in b.positions && d.symbol in b.positions[d.source]
    ensures Apply(b, d) == b
  {
    var p := PositionOf(b, d.source, d.symbol);
    assert b.active[d.source][d.orderId := d] == b.active[d.source];
    assert b.active[d.source := b.active[d.source]] == b.active;
    assert b.positions[d.source][d.symbol := p] == b.positions[d.source];
    assert b.positions[d.source := b.positions[d.source]] == b.positions;
    ApplyPosition(b, d, d.source, d.symbol);
    var q := PositionOf(Apply(b, d), d.source, d.symbol);
    assert q == p;
    assert Apply(b, d).positions == b.positions[d.source := b.positions[d.source][d.symbol := q]];
  }

  /** Dispatching the last event again changes nothing. */
  lemma RedispatchChangesNothing(b: Book, e: Event)
    ensures Dispatch(Dispatch(b, e), e) == Dispatch(b, e)
  {
    if e.OrderEvent? { ApplyHeld(Apply(b, e.data), e.data); }
  }

  const EMPTY := Book(map[], map[])

  lemma EmptyConsistent()
    ensures Consistent(EMPTY)
  {
  }

  /** The first snapshot of a book: its shares, at their price, are the position in its symbol, and there is no other. */
  lemma FirstSnapshot(d: OrderData, algo: string, symbol: string)
    ensures var p := PositionOf(Apply(EMPTY, d), algo, symbol);
            if algo != d.source || symbol != d.symbol then p == Position(0.0, 0.0)
            else p.pos == (match d.action case Buy => d.traded case Sell => -d.traded)
                 && p.cost == p.pos * d.avgPrice + d.commission
  {
    hide Money, Contribution, Apply;
    ContributionMeans(d);
    ApplyPosition(EMPTY, d, algo, symbol);
  }

  /** Ten shares bought at 10 in two fills and four sold again at 12: six are left, for what they and the fees cost. */
  lemma BuyAndSell()
    ensures var buy := OrderData(1, "A", "", "algo", Buy, 10.0, 4.0, 9.0, 1.0, Submitted, 0);
            var rest := buy.(traded := 10.0, avgPrice := 10.0, commission := 2.0, status := Filled);
            var sell := OrderData(2, "A", "", "algo", Sell, 4.0, 4.0, 12.0, 1.0, Filled, 0);
            PositionOf(Apply(Apply(Apply(EMPTY, buy), rest), sell), "algo", "A") == Position(6.0, 55.0)
  {
    hide Money, Contribution, Apply;
    var buy := OrderData(1, "A", "", "algo", Buy, 10.0, 4.0, 9.0, 1.0, Submitted, 0);
    var rest := buy.(traded := 10.0, avgPrice := 10.0, commission := 2.0, status := Filled);
    var sell := OrderData(2, "A", "", "algo", Sell, 4.0, 4.0, 12.0, 1.0, Filled, 0);
    ContributionMeans(buy);
    ContributionMeans(rest);
    ContributionMeans(sell);
    var b := Apply(EMPTY, buy);
    ApplyOrders(EMPTY, buy, "algo");
    ApplyPosition(EMPTY, buy, "algo", "A");
    ApplyOrders(b, rest, "algo");
    ApplyPosition(b, rest, "algo", "A");
    ApplyPosition(Apply(b, rest), sell, "algo", "A");
  }

  /** Snapshots that never change an order's symbol or side. */
  ghost predicate Steady(ds: seq<OrderData>)
  {
    forall i, j :: 0 <= i < j < |ds| && ds[i].orderId == ds[j].orderId && ds[i].source == ds[j].source ==>
      SameOrder(ds[i], ds[j])
  }

  /** The latest snapshots of an algo's orders in a history. */
  function Latest(ds: seq<OrderData>, algo: string): map<int, OrderData>
  {
    if ds == [] then map[]
    else
      var d := ds[|ds| - 1];
      var m := Latest(ds[..|ds| - 1], algo);
      if d.source == algo then m[d.orderId := d] else m
  }

  lemma {:induction false} LatestIsSome(ds: seq<OrderData>, algo: string, id: int) returns (i: nat)
    requires id in Latest(ds, algo)
    ensures i < |ds| && ds[i] == Latest(ds, algo)[id] && ds[i].source == algo && ds[i].orderId == id
  {
    var d := ds[|ds| - 1];
    if d.source == algo && d.orderId == id { i := |ds| - 1; } else { i := LatestIsSome(ds[..|ds| - 1], algo, id); }
  }

  /** After any history of snapshots the book holds the latest of every order, and its positions and
      costs are the recomputation from them. */
  lemma {:induction false} HistoryIsRecomputed(ds: seq<OrderData>)
    requires Steady(ds)
    ensures Consistent(ApplyAll(EMPTY, ds))
    ensures forall algo :: OrdersOf(ApplyAll(EMPTY, ds), algo) == Latest(ds, algo)
  {
    if ds == [] {
      EmptyConsistent();
    } else {
      var init, d := ds[..|ds| - 1], ds[|ds| - 1];
      HistoryIsRecomputed(init);
      var b := ApplyAll(EMPTY, init);
      if d.orderId in OrdersOf(b, d.source) { var i := LatestIsSome(init, d.source, d.orderId); }
      ApplyConsistent(b, d);
      forall algo ensures OrdersOf(ApplyAll(EMPTY, ds), algo) == Latest(ds, algo) { ApplyOrders(b, d, algo); }
    }
  }

  /** Over a whole history, steady or not: the recomputation agrees all along exactly when each snapshot may
      replace what is held when it comes. */
  lemma HistoryExact(ds: seq<OrderData>)
    ensures (forall n :: 0 <= n <= |ds| ==> Consistent(ApplyAll(EMPTY, ds[..n])))
            <==> (forall n :: 0 <= n < |ds| ==> Replaceable(ApplyAll(EMPTY, ds[..n]), ds[n]))
  {
    hide Consistent, Replaceable, Apply;
    EmptyConsistent();
    if forall n :: 0 <= n <= |ds| ==> Consistent(ApplyAll(EMPTY, ds[..n])) {
      forall n | 0 <= n < |ds|
        ensures Replaceable(ApplyAll(EMPTY, ds[..n]), ds[n])
      {
        NextExact(ds, n);
        assert Consistent(ApplyAll(EMPTY, ds[..n + 1]));
      }
    } else if forall n :: 0 <= n < |ds| ==> Replaceable(ApplyAll(EMPTY, ds[..n]), ds[n]) {
      for n := 0 to |ds|
        invariant forall m :: 0 <= m <= n ==> Consistent(ApplyAll(EMPTY, ds[..m]))
      {
        NextExact(ds, n);
      }
      assert false;
    }
  }

  lemma NextExact(ds: seq<OrderData>, n: nat)
    requires n < |ds| && Consistent(ApplyAll(EMPTY, ds[..n]))
    ensures Consistent(ApplyAll(EMPTY, ds[..n + 1])) <==> Replaceable(ApplyAll(EMPTY, ds[..n]), ds[n])
  {
    hide Consistent, Replaceable, Apply;
    assert ds[..n + 1][..n] == ds[..n];
    PortfolioExact(ApplyAll(EMPTY, ds[..n]), ds[n]);
  }

  /** What one round of the action loop does: take an event, or on a timeout keep the last one. */
  datatype Round = Popped(e: Event) | TimedOut

  /** The loop over rounds: the book, and the event that a timeout dispatches again. */
  function Rounds(rs: seq<Round>): (Book, Option<Event>)
  {
    if rs == [] then (EMPTY, None)
    else
      var (b, last) := Rounds(rs[..|rs| - 1]);
      var now := if rs[|rs| - 1].Popped? then Some(rs[|rs| - 1].e) else last;
      (if now.Some? then Dispatch(b, now.value) else b, now)
  }

  function PoppedEvents(rs: seq<Round>): seq<Event>
  {
    if rs == [] then []
    else PoppedEvents(rs[..|rs| - 1]) + (if rs[|rs| - 1].Popped? then [rs[|rs| - 1].e] else [])
  }

  /** Any number of timeouts, anywhere, leave the book as the popped snapshots alone make it. */
  lemma {:induction false} TimeoutsAreHarmless(rs: seq<Round>)
    ensures Rounds(rs).0 == ApplyAll(EMPTY, OrderEvents(PoppedEvents(rs)))
    ensures Rounds(rs).1.Some? ==> Dispatch(Rounds(rs).0, Rounds(rs).1.value) == Rounds(rs).0
  {
    if rs != [] {
      hide Apply;
      var init, r := rs[..|rs| - 1], rs[|rs| - 1];
      TimeoutsAreHarmless(init);
      if r.Popped? {
        RedispatchChangesNothing(Rounds(init).0, r.e);
        assert PoppedEvents(rs) == PoppedEvents(init) + [r.e];
        OrderEventsConcat(PoppedEvents(init), [r.e]);
        AppendOne(OrderEvents(PoppedEvents(init)), r.e);
        assert Rounds(rs) == (Dispatch(Rounds(init).0, r.e), Some(r.e));
      } else {
        assert PoppedEvents(rs) == PoppedEvents(init);
      }
    }
  }

  lemma AppendOne(ds: seq<OrderData>, e: Event)
    ensures ApplyAll(EMPTY, ds + OrderEvents([e])) == Dispatch(ApplyAll(EMPTY, ds), e)
  {
    hide Apply;
    assert OrderEvents([e]) == if e.OrderEvent? then [e.data] else [];
    var all := ds + OrderEvents([e]);
    if e.OrderEvent? { assert all[..|all| - 1] == ds; } else { assert all == ds; }
  }

  class Portfolio {
    var active: map<string, map<int, OrderData>>
    var positions: map<string, map<string, Position>>
    var last: Option<Event>
    var running: bool
    const q: LBQueue<Event>

    function View(): Book
      reads this
    {
      Book(active, positions)
    }

    constructor (q: LBQueue<Event>)
      ensures View() == EMPTY && last == None && !running && this.q == q
    {
      active, positions, last, running := map[], map[], None, false;
      this.q := q;
    }

    /** Makes room for a position before the portfolio runs; a position that exists is kept. */
    method AddToPortfolio(algo: string, symbol: string)
      modifies this`positions
      ensures running ==> positions == old(positions)
      ensures !running ==> algo in positions && symbol in positions[algo]
      ensures forall a, s :: PositionOf(View(), a, s) == old(PositionOf(View(), a, s))
    {
      if running {
        return;
      }
      var m := if algo in positions then positions[algo] else map[];
      if symbol !in m {
        m := m[symbol := FLAT];
      }
      positions := positions[algo := m];
    }

    method OrderDataCb(d: OrderData)
      modifies this`active, this`positions
      ensures View() == Apply(old(View()), d)
    {
      hide Money;
      var algoOrders := if d.source in active then active[d.source] else map[];
      var changeQty, changeCost, changeComm := d.traded, Money(d.traded, d.avgPrice), d.commission;
      if d.orderId in algoOrders {
        var was := algoOrders[d.orderId];
        changeQty, changeCost, changeComm :=
          changeQty - was.traded, changeCost - Money(was.traded, was.avgPrice), changeComm - was.commission;
      }
      active := active[d.source := algoOrders[d.orderId := d]];
      if d.action == Sell {
        changeQty := changeQty * -1.0;
        changeCost := changeCost * -1.0;
      }
      var m := if d.source in positions then positions[d.source] else map[];
      var p := if d.symbol in m then m[d.symbol] else FLAT;
      positions := positions[d.source := m[d.symbol := Position(p.pos + changeQty, p.cost + changeCost + changeComm)]];
    }

    /** One round of run_actions: the event taken, or after a timeout the one before, is dispatched. */
    method RunOnce() returns (round: Round)
      modifies this, q
      ensures running == old(running)
      ensures round == if old(q.items) == [] then TimedOut else Popped(old(q.items)[0])
      ensures q.items == if old(q.items) == [] then [] else old(q.items)[1..]
      ensures last == if round.Popped? then Some(round.e) else old(last)
      ensures View() == if last.Some? then Dispatch(old(View()), last.value) else old(View())
    {
      var ok, event := q.TryPop(if last.Some? then last.value else OtherEvent(0));
      round := if ok then Popped(event) else TimedOut;
      if ok {
        last := Some(event);
      }
      if last.Some? && last.value.OrderEvent? {
        OrderDataCb(last.value.data);
      }
    }
  }
}
