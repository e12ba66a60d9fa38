/** Whether the portfolio's positions agree with the gateway's order map. Snapshots are emitted outside the order
    lock, so one may overtake an older one of the same order. */
module Agreement {
  import opened Basics
  import opened Orders
  import opened Engine
  import opened Gateway
  import opened PortfolioBook
  import opened Pipeline

  predicate Identity(x: OrderData, y: OrderData)
  {
    x.orderId == y.orderId && x.source == y.source && SameOrder(x, y)
  }

  /** The last snapshot of an order. */
  function LastOf(ds: seq<OrderData>, id: int): Option<OrderData>
  {
    if ds == [] then None
    else if ds[|ds| - 1].orderId == id then Some(ds[|ds| - 1])
    else LastOf(ds[..|ds| - 1], id)
  }

  /** All snapshots taken: those emitted, and those under way. */
  function All(s: State): seq<OrderData> { s.history + s.underway }

  lemma {:induction false} LastOfConcat(a: seq<OrderData>, b: seq<OrderData>, id: int)
    ensures LastOf(a + b, id) == if LastOf(b, id).Some? then LastOf(b, id) else LastOf(a, id)
  {
    if b == [] {
      assert a + b == a;
    } else {
      assert (a + b)[..|a + b| - 1] == a + b[..|b| - 1];
      LastOfConcat(a, b[..|b| - 1], id);
    }
  }

  lemma {:induction false} LastOfIs(ds: seq<OrderData>, id: int)
    ensures LastOf(ds, id).Some? <==> exists d :: d in ds && d.orderId == id
    ensures LastOf(ds, id).Some? ==> LastOf(ds, id).value in ds && LastOf(ds, id).value.orderId == id
  {
    if ds != [] {
      var init, d := ds[..|ds| - 1], ds[|ds| - 1];
      LastOfIs(init, id);
      assert forall x :: x in ds <==> x in init || x == d;
    }
  }

  lemma LastOfOne(d: OrderData, id: int)
    ensures LastOf([d], id) == if d.orderId == id then Some(d) else None
  {
  }

  // ---- what every run keeps

  /** Every order has been reported, and every report is of an order with its source, symbol and side. */
  ghost predicate Accounts(orders: map<int, OrderData>, ds: seq<OrderData>)
  {
    && (forall id :: id in orders ==> orders[id].orderId == id && LastOf(ds, id).Some?)
    && (forall d :: d in ds ==> d.orderId in orders && Identity(d, orders[d.orderId]))
  }

  lemma AccountsTaken(orders: map<int, OrderData>, ds: seq<OrderData>, d: OrderData)
    requires Accounts(orders, ds) && (d.orderId in orders ==> Identity(d, orders[d.orderId]))
    ensures Accounts(orders[d.orderId := d], ds + [d])
  {
    var now := orders[d.orderId := d];
    forall id | id in now
      ensures now[id].orderId == id && LastOf(ds + [d], id).Some?
    {
      LastOfConcat(ds, [d], id);
      LastOfOne(d, id);
    }
    forall x | x in ds + [d]
      ensures x.orderId in now && Identity(x, now[x.orderId])
    {
      assert x in ds || x == d;
    }
  }

  /** The map has a new snapshot, which is under way. */
  predicate Adds(s: State, t: State, d: OrderData)
  {
    t.orders == s.orders[d.orderId := d] && t.underway == s.underway + [d]
    && (d.orderId in s.orders ==> Identity(d, s.orders[d.orderId]))
  }

  /** What a change under the order lock does, whoever makes it. */
  lemma TakenOutcome(s: State, step: Step, cbs: Callbacks)
    requires (forall id :: id in s.orders ==> s.orders[id].orderId == id) && Enabled(s, step)
    ensures var t := Do(cbs, s, step);
            if step.SendOrder? || step.Open? || step.Status? || step.Error? then
              t.history == s.history
              && ((t.orders == s.orders && t.underway == s.underway) || exists d :: Adds(s, t, d))
            else t.orders == s.orders && (!step.Emit? ==> t.underway == s.underway && t.history == s.history)
  {
    var t := Do(cbs, s, step);
    if t.underway != s.underway && !step.Emit? {
      var d := t.underway[|s.underway|];
      assert Adds(s, t, d);
    }
  }

  lemma Moved(h: seq<OrderData>, u: seq<OrderData>, i: nat)
    requires i < |u|
    ensures h + [u[i]] + Without(u, i) == h + [u[i]] + u[..i] + u[i + 1..]
    ensures h + u == h + u[..i] + [u[i]] + u[i + 1..]
    ensures forall d :: d in h + [u[i]] + Without(u, i) <==> d in h + u
  {
    assert u == u[..i] + [u[i]] + u[i + 1..];
  }

  lemma AccountsMoved(orders: map<int, OrderData>, h: seq<OrderData>, u: seq<OrderData>, i: nat)
    requires i < |u| && Accounts(orders, h + u)
    ensures Accounts(orders, h + [u[i]] + Without(u, i))
  {
    Moved(h, u, i);
    hide Without;
    forall id | id in orders
      ensures LastOf(h + [u[i]] + Without(u, i), id).Some?
    {
      LastOfIs(h + u, id);
      LastOfIs(h + [u[i]] + Without(u, i), id);
    }
  }

  lemma StepAccounts(cbs: Callbacks, s: State, step: Step)
    requires Accounts(s.orders, All(s)) && Enabled(s, step)
    ensures Accounts(Do(cbs, s, step).orders, All(Do(cbs, s, step)))
  {
    var t := Do(cbs, s, step);
    TakenOutcome(s, step, cbs);
    hide Do, Identity, LastOf, Without;
    if step.Emit? {
      EmitEffect(cbs, s, step.i);
      AccountsMoved(s.orders, s.history, s.underway, step.i);
    } else if t.underway != s.underway {
      var d :| Adds(s, t, d);
      AccountsTaken(s.orders, All(s), d);
      assert All(t) == All(s) + [d];
    }
  }

  lemma EmitEffect(cbs: Callbacks, s: State, i: nat)
    requires i < |s.underway|
    ensures var t := Do(cbs, s, Emit(i));
            t.orders == s.orders && t.history == s.history + [s.underway[i]] && t.underway == Without(s.underway, i)
  {
  }

  lemma {:induction false} RunAccounts(cbs: Callbacks, steps: seq<Step>)
    requires Run(cbs, steps).Some?
    ensures Accounts(Run(cbs, steps).value.orders, All(Run(cbs, steps).value))
  {
    if steps != [] {
      hide Accounts, Do, Enabled;
      RunAccounts(cbs, steps[..|steps| - 1]);
      StepAccounts(cbs, Run(cbs, steps[..|steps| - 1]).value, steps[|steps| - 1]);
    }
  }

  /** At any time in any run any order may be sent, any answer may come, and any snapshot under way may be emitted; the
      engine takes and delivers what it has, consumers take what waits for them, and an empty queue may time out. */
  lemma NothingWaits(cbs: Callbacks, steps: seq<Step>, step: Step)
    requires Run(cbs, steps).Some?
    requires step.SendOrder? || step.NextValidId? || step.Open? || step.Status? || step.Error?
             || (var s := Run(cbs, steps).value;
                 || (step.Emit? && step.i < |s.underway|)
                 || (step.Send? && !step.e.OrderEvent?)
                 || (step.EnginePop? && s.inHand.None? && s.engineQ != [])
                 || (step.Deliver? && s.inHand.Some? && step.name in s.owed)
                 || (step.Take? && At(s.queues, step.c) != [])
                 || (step.Timeout? && At(s.queues, "portfolio") == []))
    ensures Run(cbs, steps + [step]).Some?
    ensures Run(cbs, []) == Some(State(map[], -1, [], [], [], None, {}, map[], map[], Book(map[], map[]), None))
  {
    hide Do;
    RunAccounts(cbs, steps);
    assert (steps + [step])[..|steps|] == steps;
  }

  // ---- emissions in turn

  /** Emitted in the order in which they were taken, the snapshots under way would leave every order as the map
      has it. */
  ghost predicate InTurn(s: State)
  {
    forall id :: id in s.orders ==> LastOf(All(s), id) == Some(s.orders[id])
  }

  /** The latest snapshot of an order is emitted while an older, different one is still under way: the older one
      will have the last word. */
  predicate Spoils(s: State, step: Step)
  {
    step.Emit? && step.i < |s.underway| &&
    var d := s.underway[step.i];
    LastOf(s.underway[step.i + 1..], d.orderId).None?
    && LastOf(s.underway[..step.i], d.orderId).Some? && LastOf(s.underway[..step.i], d.orderId).value != d
  }

  lemma MovedLast(h: seq<OrderData>, u: seq<OrderData>, i: nat, id: int)
    requires i < |u|
    ensures var a, b, x := LastOf(u[..i], id), LastOf(u[i + 1..], id), u[i];
            && LastOf(h + u, id) == (if b.Some? then b else if x.orderId == id then Some(x) else if a.Some? then a else LastOf(h, id))
            && LastOf(h + [x] + Without(u, i), id) ==
                 (if b.Some? then b else if a.Some? then a else if x.orderId == id then Some(x) else LastOf(h, id))
  {
    Moved(h, u, i);
    hide LastOf, Without;
    LastOfOne(u[i], id);
    LastOfConcat(h + u[..i] + [u[i]], u[i + 1..], id);
    LastOfConcat(h + u[..i], [u[i]], id);
    LastOfConcat(h, u[..i], id);
    LastOfConcat(h + [u[i]] + u[..i], u[i + 1..], id);
    LastOfConcat(h + [u[i]], u[..i], id);
    LastOfConcat(h, [u[i]], id);
  }

  lemma TakenTurn(s: State, t: State, d: OrderData)
    requires InTurn(s) && Adds(s, t, d) && t.history == s.history
    ensures InTurn(t)
  {
    hide Identity, LastOf;
    assert All(t) == All(s) + [d];
    forall id | id in t.orders
      ensures LastOf(All(t), id) == Some(t.orders[id])
    {
      LastOfConcat(All(s), [d], id);
      LastOfOne(d, id);
    }
  }

  /** A step keeps the turn exactly when it does not spoil it. */
  lemma TurnStep(cbs: Callbacks, s: State, step: Step)
    requires Accounts(s.orders, All(s)) && InTurn(s) && Enabled(s, step)
    ensures InTurn(Do(cbs, s, step)) <==> !Spoils(s, step)
  {
    var t := Do(cbs, s, step);
    TakenOutcome(s, step, cbs);
    hide Do, LastOf, Adds;
    if step.Emit? {
      EmitEffect(cbs, s, step.i);
      hide InTurn;
      EmitTurn(s, t, step.i);
    } else if t.orders != s.orders || t.underway != s.underway {
      hide InTurn;
      var d :| Adds(s, t, d);
      TakenTurn(s, t, d);
    }
  }

  lemma EmitTurn(s: State, t: State, i: nat)
    requires Accounts(s.orders, All(s)) && InTurn(s) && i < |s.underway|
    requires t.orders == s.orders && t.history == s.history + [s.underway[i]] && t.underway == Without(s.underway, i)
    ensures InTurn(t) <==> !Spoils(s, Emit(i))
  {
    hide LastOf, Identity, Without;
    var d := s.underway[i];
    assert d in All(s);
    forall id | id in s.orders
      ensures LastOf(All(t), id) == LastOf(All(s), id) <==> id != d.orderId || !Spoils(s, Emit(i))
    {
      MovedLast(s.history, s.underway, i, id);
    }
  }

  ghost predicate KeptInTurn(cbs: Callbacks, steps: seq<Step>)
    requires Run(cbs, steps).Some?
  {
    steps != [] ==> KeptInTurn(cbs, steps[..|steps| - 1]) && InTurn(Run(cbs, steps).value)
  }

  ghost predicate NoneSpoils(cbs: Callbacks, steps: seq<Step>)
    requires Run(cbs, steps).Some?
  {
    steps != [] ==>
      && NoneSpoils(cbs, steps[..|steps| - 1])
      && !Spoils(Run(cbs, steps[..|steps| - 1]).value, steps[|steps| - 1])
  }

  /** A run stays in turn all along if and only if none of its steps spoils the turn. */
  lemma {:induction false} RunInTurn(cbs: Callbacks, steps: seq<Step>)
    requires Run(cbs, steps).Some?
    ensures KeptInTurn(cbs, steps) <==> NoneSpoils(cbs, steps)
    ensures KeptInTurn(cbs, steps) ==> InTurn(Run(cbs, steps).value)
  {
    if steps != [] {
      hide Accounts, Do, Enabled, InTurn, Spoils;
      var init := steps[..|steps| - 1];
      RunInTurn(cbs, init);
      RunAccounts(cbs, init);
      if KeptInTurn(cbs, init) { TurnStep(cbs, Run(cbs, init).value, steps[|steps| - 1]); }
    }
  }

  // ---- the portfolio once everything has arrived

  /** No order snapshot is on its way. */
  predicate Drained(s: State, n: string)
  {
    s.underway == [] && OrderEvents(At(s.queues, PORTFOLIO) + InHandFor(s, n) + s.engineQ) == []
  }

  function OrdersFrom(orders: map<int, OrderData>, algo: string): map<int, OrderData>
  {
    map id | id in orders && orders[id].source == algo :: orders[id]
  }

  /** An algo's orders as last reported. */
  function Reported(orders: map<int, OrderData>, ds: seq<OrderData>, algo: string): map<int, OrderData>
  {
    map id | id in orders && orders[id].source == algo && LastOf(ds, id).Some? :: LastOf(ds, id).value
  }

  lemma {:induction false} LatestIsReported(orders: map<int, OrderData>, ds: seq<OrderData>, algo: string)
    requires forall d :: d in ds ==> d.orderId in orders && Identity(d, orders[d.orderId])
    ensures Latest(ds, algo) == Reported(orders, ds, algo)
  {
    if ds == [] {
      assert Reported(orders, ds, algo) == map[];
    } else {
      var init, d := ds[..|ds| - 1], ds[|ds| - 1];
      LatestIsReported(orders, init, algo);
      assert d in ds;
      if d.source == algo {
        assert Reported(orders, ds, algo) == Reported(orders, init, algo)[d.orderId := d];
      } else {
        assert Reported(orders, ds, algo) == Reported(orders, init, algo);
      }
    }
  }

  lemma AccountsSteady(orders: map<int, OrderData>, ds: seq<OrderData>)
    requires forall d :: d in ds ==> d.orderId in orders && Identity(d, orders[d.orderId])
    ensures Steady(ds)
  {
    forall i, j | 0 <= i < j < |ds| && ds[i].orderId == ds[j].orderId
      ensures SameOrder(ds[i], ds[j])
    {
      assert ds[i] in ds && ds[j] in ds;
    }
  }

  /** In every run, once every snapshot has arrived, position and cost of every algo in every symbol are those of
      its orders as they were last emitted. */
  lemma PositionsAsEmitted(cbs: Callbacks, steps: seq<Step>, n: string)
    requires Sole(cbs, n, PORTFOLIO) && Run(cbs, steps).Some? && Drained(Run(cbs, steps).value, n)
    ensures var s := Run(cbs, steps).value;
            forall algo, symbol :: PositionOf(s.book, algo, symbol) == Total(Reported(s.orders, s.history, algo), symbol)
  {
    hide OrderEvents, PositionOf, Total, Dispatch, Run, LastOf, Reported, Identity;
    var s := Run(cbs, steps).value;
    NothingLost(cbs, steps, n, PORTFOLIO);
    RunKeepsBook(cbs, steps);
    RunAccounts(cbs, steps);
    assert All(s) == s.history;
    var rest := At(s.queues, PORTFOLIO) + InHandFor(s, n) + s.engineQ;
    assert Path(s, n, PORTFOLIO) == At(s.taken, PORTFOLIO) + rest;
    OrderEventsConcat(At(s.taken, PORTFOLIO), rest);
    assert OrderEvents(At(s.taken, PORTFOLIO)) == s.history;
    AccountsSteady(s.orders, s.history);
    HistoryIsRecomputed(s.history);
    assert s.book == ApplyAll(EMPTY, s.history) && Consistent(s.book);
    forall algo, symbol
      ensures PositionOf(s.book, algo, symbol) == Total(Reported(s.orders, s.history, algo), symbol)
    {
      LatestIsReported(s.orders, s.history, algo);
      assert PositionOf(s.book, algo, symbol) == Total(OrdersOf(s.book, algo), symbol);
    }
  }

  ghost predicate Matches(s: State)
  {
    forall algo, symbol :: PositionOf(s.book, algo, symbol) == Total(OrdersFrom(s.orders, algo), symbol)
  }

  lemma InTurnIsGateway(s: State, algo: string)
    requires InTurn(s)
    ensures Reported(s.orders, All(s), algo) == OrdersFrom(s.orders, algo)
  {
    hide LastOf;
  }

  /** In every run whose snapshots are emitted in turn, whatever else overlaps, the positions and costs are, once
      drained, the signed sums over the orders in the gateway's map. */
  lemma PositionsMatchGateway(cbs: Callbacks, steps: seq<Step>, n: string)
    requires Sole(cbs, n, PORTFOLIO) && Run(cbs, steps).Some? && NoneSpoils(cbs, steps)
    requires Drained(Run(cbs, steps).value, n)
    ensures Matches(Run(cbs, steps).value)
  {
    hide PositionOf, Total, Run, Reported, OrdersFrom, InTurn;
    var s := Run(cbs, steps).value;
    PositionsAsEmitted(cbs, steps, n);
    RunInTurn(cbs, steps);
    if steps == [] { StartInTurn(cbs); }
    assert All(s) == s.history;
    forall algo, symbol
      ensures PositionOf(s.book, algo, symbol) == Total(OrdersFrom(s.orders, algo), symbol)
    {
      InTurnIsGateway(s, algo);
    }
  }

  lemma StartInTurn(cbs: Callbacks)
    ensures Run(cbs, []) == Some(START) && InTurn(START)
  {
  }
}
