/** Order snapshots on their way from the gateway to the consumers.  Every lock-protected operation
    of every thread is one step, and steps of different threads interleave in any order. */
module Pipeline {
  import opened Basics
  import opened Orders
  import opened Engine
  import opened Gateway
  import opened PortfolioBook

  const PORTFOLIO: Consumer := "portfolio"

  /** Consumer c has one callback, called n, for order events. */
  ghost predicate Sole(cbs: Callbacks, n: string, c: Consumer)
  {
    var m := NamesFor(cbs, OrderKind);
    n in m && m[n] == c && forall o :: o in m && m[o] == c ==> o == n
  }

  datatype State = State(
    // the gateway
    orders: map<int, OrderData>, nextId: int,
    underway: seq<OrderData>,       // snapshots taken under the order lock and not yet emitted, oldest first
    history: seq<OrderData>,        // every snapshot emitted
    // the event engine
    engineQ: seq<Event>, inHand: Option<Event>, owed: set<string>,
    // the consumers
    queues: map<Consumer, seq<Event>>, taken: map<Consumer, seq<Event>>,
    book: Book, last: Option<Event>)

  const START := State(map[], -1, [], [], [], None, {}, map[], map[], EMPTY, None)

  /** A snapshot is taken under the order lock and emitted after it has been released: any number of threads may
      be between the two, and the snapshots under way are emitted in any order. */
  datatype Step =
    | SendOrder(req: OrderReq)                        // send_order, under the order lock
    | NextValidId(id: int)
    | Open(id: int, commission: Option<real>)         // broker callbacks, under the order lock
    | Status(id: int, status: OrderStatus, filled: real, avgPrice: real)
    | Error(id: int, code: int)
    | Emit(i: nat)                                    // the thread of snapshot i under way
    | Send(e: Event)                                  // anything else that is sent to the engine
    | EnginePop
    | Deliver(name: string)
    | Take(c: Consumer)
    | Timeout                                         // the portfolio's queue stayed empty

  predicate IdKept(orders: map<int, OrderData>, id: int) { id in orders ==> orders[id].orderId == id }

  /** When a step can happen: sends, broker callbacks and errors at any time. */
  predicate Enabled(s: State, step: Step)
  {
    match step
    case SendOrder(_) => true
    case NextValidId(_) => true
    case Open(id, _) => IdKept(s.orders, id)
    case Status(id, _, _, _) => IdKept(s.orders, id)
    case Error(id, _) => IdKept(s.orders, id)
    case Emit(i) => i < |s.underway|
    case Send(e) => !e.OrderEvent?
    case EnginePop => s.inHand.None? && s.engineQ != []
    case Deliver(name) => s.inHand.Some? && name in s.owed
    case Take(c) => At(s.queues, c) != []
    case Timeout => At(s.queues, PORTFOLIO) == []
  }

  function Emitted(s: State, d: OrderData): State
  {
    s.(history := s.history + [d], engineQ := s.engineQ + [OrderEvent(d)])
  }

  function Without(ds: seq<OrderData>, i: nat): seq<OrderData>
    requires i < |ds|
  {
    ds[..i] + ds[i + 1..]
  }

  function Do(cbs: Callbacks, s: State, step: Step): State
    requires Enabled(s, step)
  {
    match step
    case SendOrder(req) =>
      var id := if req.orderId.None? then s.nextId else req.orderId.value;
      TakenDown(s, OnSend(s.orders, id, req)).(nextId := if req.orderId.None? then s.nextId + 1 else s.nextId)
    case NextValidId(id) => s.(nextId := id)
    case Open(id, commission) => TakenDown(s, OnOpen(s.orders, id, commission))
    case Status(id, status, filled, avgPrice) => TakenDown(s, OnStatus(s.orders, id, status, filled, avgPrice))
    case Error(id, code) => TakenDown(s, OnError(s.orders, id, code))
    case Emit(i) => Emitted(s, s.underway[i]).(underway := Without(s.underway, i))
    case Send(e) => s.(engineQ := s.engineQ + [e])
    case EnginePop =>
      var owed := NamesFor(cbs, KindOf(s.engineQ[0])).Keys;
      s.(engineQ := s.engineQ[1..], inHand := if owed == {} then None else Some(s.engineQ[0]), owed := owed)
    case Deliver(name) =>
      var names := NamesFor(cbs, KindOf(s.inHand.value));
      var owed := s.owed - {name};
      var c := if name in names then names[name] else "";
      s.(queues := s.queues[c := At(s.queues, c) + [s.inHand.value]], owed := owed,
         inHand := if owed == {} then None else s.inHand)
    case Take(c) =>
      var e := At(s.queues, c)[0];
      var t := s.(queues := s.queues[c := At(s.queues, c)[1..]], taken := s.taken[c := At(s.taken, c) + [e]]);
      if c == PORTFOLIO then t.(book := Dispatch(s.book, e), last := Some(e)) else t
    case Timeout => if s.last.Some? then s.(book := Dispatch(s.book, s.last.value)) else s
  }

  /** What a change of the order map leaves: the map, and its snapshot under way. */
  function TakenDown(s: State, o: Outcome): State
  {
    s.(orders := o.orders, underway := s.underway + (if o.snapshot.Some? then [o.snapshot.value] else []))
  }

  /** The state after a run of steps from the start, if each of them was enabled. */
  function Run(cbs: Callbacks, steps: seq<Step>): Option<State>
  {
    if steps == [] then Some(START)
    else
      var before := Run(cbs, steps[..|steps| - 1]);
      var step := steps[|steps| - 1];
      if before.Some? && Enabled(before.value, step) then Some(Do(cbs, before.value, step)) else None
  }

  // ---- what the gateway's steps do

  /** Sending a new order uses up the next id, enters the order with nothing traded, and takes its snapshot. */
  lemma SendStep(cbs: Callbacks, s: State, req: OrderReq)
    requires req.orderId == None && s.nextId !in s.orders
    ensures Enabled(s, SendOrder(req))
    ensures var t := Do(cbs, s, SendOrder(req));
            && t.nextId == s.nextId + 1 && t.orders.Keys == s.orders.Keys + {s.nextId} && t.history == s.history
            && (forall id :: id in s.orders ==> t.orders[id] == s.orders[id])
            && var d := t.orders[s.nextId];
               && t.underway == s.underway + [d]
               && d.orderId == s.nextId && d.source == req.source && d.symbol == req.symbol && d.action == req.action
               && d.total == req.quantity && d.traded == 0.0 && d.avgPrice == 0.0 && d.commission == 0.0
               && d.status == PendingSubmit && d.errorCode == 0
  {
  }

  /** A broker's answer about a known order changes the fields it is about and takes the snapshot; about an unknown
      order it does nothing. */
  lemma AnswerStep(cbs: Callbacks, s: State, step: Step, id: int)
    requires step.Open? || step.Status? || step.Error?
    requires step.id == id && (id in s.orders ==> s.orders[id].orderId == id)
    ensures Enabled(s, step)
    ensures var t := Do(cbs, s, step);
            && t.history == s.history && t.nextId == s.nextId && t.engineQ == s.engineQ
            && if id !in s.orders || (step.Open? && step.commission.None?)
               then t.orders == s.orders && t.underway == s.underway
               else
                 && t.orders == s.orders[id := t.orders[id]] && t.underway == s.underway + [t.orders[id]]
                 && var d := s.orders[id];
                    t.orders[id] ==
                    OrderData(d.orderId, d.symbol, d.exchange, d.source, d.action, d.total,
                              if step.Status? then step.filled else d.traded,
                              if step.Status? then step.avgPrice else d.avgPrice,
                              if step.Open? then step.commission.value else d.commission,
                              if step.Status? then step.status else d.status,
                              if step.Error? then step.code else d.errorCode)
  {
  }

  // ---- nothing is lost, duplicated or reordered on the way to a consumer

  function InHandFor(s: State, n: string): seq<Event>
  {
    if s.inHand.Some? && n in s.owed then [s.inHand.value] else []
  }

  /** What consumer c has taken, what waits for it, what the engine is delivering, and what waits for
      the engine. */
  function Path(s: State, n: string, c: Consumer): seq<Event>
  {
    At(s.taken, c) + At(s.queues, c) + InHandFor(s, n) + s.engineQ
  }

  ghost predicate Conserved(cbs: Callbacks, s: State, n: string, c: Consumer)
  {
    && OrderEvents(Path(s, n, c)) == s.history
    && (s.inHand.Some? ==> s.owed <= NamesFor(cbs, KindOf(s.inHand.value)).Keys)
    && (s.inHand.None? ==> s.owed == {})
  }

  lemma PathEvents(s: State, n: string, c: Consumer)
    ensures OrderEvents(Path(s, n, c)) ==
            OrderEvents(At(s.taken, c)) + OrderEvents(At(s.queues, c)) + OrderEvents(InHandFor(s, n)) + OrderEvents(s.engineQ)
  {
    hide OrderEvents;
    OrderEventsConcat(At(s.taken, c) + At(s.queues, c) + InHandFor(s, n), s.engineQ);
    OrderEventsConcat(At(s.taken, c) + At(s.queues, c), InHandFor(s, n));
    OrderEventsConcat(At(s.taken, c), At(s.queues, c));
  }

  lemma ConservedStep(cbs: Callbacks, s: State, step: Step, n: string, c: Consumer)
    requires Sole(cbs, n, c) && Conserved(cbs, s, n, c) && Enabled(s, step)
    ensures Conserved(cbs, Do(cbs, s, step), n, c)
  {
    hide OrderEvents, Dispatch, Path, OnSend, OnOpen, OnStatus, OnError;
    var t := Do(cbs, s, step);
    match step {
      case Emit(i) =>
        EmitConserved(s, s.underway[i], n, c);
        SamePath(Emitted(s, s.underway[i]), t, n, c);
      case Send(e) =>
        SendPath(s, e, n, c);
      case EnginePop => PopConserved(cbs, s, n, c);
      case Deliver(name) => DeliverConserved(cbs, s, name, n, c);
      case Take(d) => TakePath(cbs, s, d, n, c);
      case _ => SamePath(s, t, n, c);
    }
  }

  lemma SendPath(s: State, e: Event, n: string, c: Consumer)
    requires !e.OrderEvent?
    ensures OrderEvents(Path(s.(engineQ := s.engineQ + [e]), n, c)) == OrderEvents(Path(s, n, c))
  {
    hide OrderEvents;
    assert Path(s.(engineQ := s.engineQ + [e]), n, c) == Path(s, n, c) + [e];
    OrderEventsConcat(Path(s, n, c), [e]);
    OtherIsNoOrder(e);
  }

  lemma SamePath(s: State, t: State, n: string, c: Consumer)
    requires s.taken == t.taken && s.queues == t.queues && s.inHand == t.inHand && s.owed == t.owed && s.engineQ == t.engineQ
    ensures Path(s, n, c) == Path(t, n, c)
  {
  }

  lemma TakePath(cbs: Callbacks, s: State, d: Consumer, n: string, c: Consumer)
    requires Enabled(s, Take(d))
    ensures Path(Do(cbs, s, Take(d)), n, c) == Path(s, n, c)
  {
    hide Dispatch;
    var t := Do(cbs, s, Take(d));
    if c == d {
      var e, rest := At(s.queues, c)[0], At(s.queues, c)[1..];
      assert At(s.queues, c) == [e] + rest;
      assert At(t.taken, c) == At(s.taken, c) + [e] && At(t.queues, c) == rest;
      assert At(s.taken, c) + [e] + rest == At(s.taken, c) + At(s.queues, c);
    }
    assert InHandFor(t, n) == InHandFor(s, n);
  }

  lemma OtherIsNoOrder(e: Event)
    ensures OrderEvents([]) == [] && OrderEvents([e]) == if e.OrderEvent? then [e.data] else []
  {
  }

  lemma EmitConserved(s: State, d: OrderData, n: string, c: Consumer)
    ensures OrderEvents(Path(Emitted(s, d), n, c)) == OrderEvents(Path(s, n, c)) + [d]
  {
    hide OrderEvents;
    assert Path(Emitted(s, d), n, c) == Path(s, n, c) + [OrderEvent(d)];
    OrderEventsConcat(Path(s, n, c), [OrderEvent(d)]);
    OtherIsNoOrder(OrderEvent(d));
  }

  lemma PopConserved(cbs: Callbacks, s: State, n: string, c: Consumer)
    requires Sole(cbs, n, c) && Conserved(cbs, s, n, c) && Enabled(s, EnginePop)
    ensures Conserved(cbs, Do(cbs, s, EnginePop), n, c)
  {
    hide OrderEvents;
    var t, e := Do(cbs, s, EnginePop), s.engineQ[0];
    var before := At(s.taken, c) + At(s.queues, c);
    assert s.engineQ == [e] + s.engineQ[1..];
    assert Path(s, n, c) == before + [e] + s.engineQ[1..];
    if e.OrderEvent? {
      assert n in t.owed;
      assert Path(t, n, c) == Path(s, n, c);
    } else {
      OtherIsNoOrder(e);
      OrderEventsConcat(before + [e], s.engineQ[1..]);
      OrderEventsConcat(before, [e]);
      PathEvents(t, n, c);
      OrderEventsConcat(At(s.taken, c), At(s.queues, c));
      if n in t.owed { assert InHandFor(t, n) == [e]; } else { assert InHandFor(t, n) == []; }
    }
  }

  lemma OthersStayInHand(cbs: Callbacks, s: State, name: string, n: string)
    requires Enabled(s, Deliver(name)) && name != n
    ensures InHandFor(Do(cbs, s, Deliver(name)), n) == InHandFor(s, n)
  {
    var owed := s.owed - {name};
    assert n in owed <==> n in s.owed;
    if owed == {} { assert n !in s.owed; }
  }

  /** A delivery to another consumer, or under another name. */
  lemma OtherDelivered(cbs: Callbacks, s: State, name: string, n: string, c: Consumer)
    requires Conserved(cbs, s, n, c) && Enabled(s, Deliver(name)) && name != n
    requires NamesFor(cbs, KindOf(s.inHand.value))[name] == c ==> !s.inHand.value.OrderEvent?
    ensures OrderEvents(Path(Do(cbs, s, Deliver(name)), n, c)) == s.history
  {
    hide OrderEvents;
    var t, e := Do(cbs, s, Deliver(name)), s.inHand.value;
    OthersStayInHand(cbs, s, name, n);
    if NamesFor(cbs, KindOf(e))[name] == c {
      OtherIsNoOrder(e);
      PathEvents(s, n, c);
      PathEvents(t, n, c);
      OrderEventsConcat(At(s.queues, c), [e]);
    } else {
      assert Path(t, n, c) == Path(s, n, c);
    }
  }

  lemma OwnDelivered(cbs: Callbacks, s: State, n: string, c: Consumer)
    requires Sole(cbs, n, c) && Conserved(cbs, s, n, c) && Enabled(s, Deliver(n))
    ensures OrderEvents(Path(Do(cbs, s, Deliver(n)), n, c)) == s.history
  {
    hide OrderEvents;
    var t, e := Do(cbs, s, Deliver(n)), s.inHand.value;
    assert InHandFor(s, n) == [e] && InHandFor(t, n) == [];
    if NamesFor(cbs, KindOf(e))[n] == c {
      assert Path(t, n, c) == Path(s, n, c);
    } else {
      OtherIsNoOrder(e);
      PathEvents(s, n, c);
      PathEvents(t, n, c);
    }
  }

  lemma DeliverConserved(cbs: Callbacks, s: State, name: string, n: string, c: Consumer)
    requires Sole(cbs, n, c) && Conserved(cbs, s, n, c) && Enabled(s, Deliver(name))
    ensures Conserved(cbs, Do(cbs, s, Deliver(name)), n, c)
  {
    hide OrderEvents, Path;
    if name == n { OwnDelivered(cbs, s, n, c); } else { OtherDelivered(cbs, s, name, n, c); }
  }

  /** For every run of every interleaving: what a consumer has taken, what waits for it, what is being
      delivered and what waits for the engine are together the gateway's emissions, in order. */
  lemma {:induction false} NothingLost(cbs: Callbacks, steps: seq<Step>, n: string, c: Consumer)
    requires Sole(cbs, n, c) && Run(cbs, steps).Some?
    ensures Conserved(cbs, Run(cbs, steps).value, n, c)
  {
    if steps == [] {
      assert Path(START, n, c) == [];
    } else {
      hide Conserved, Do, Enabled;
      var init := steps[..|steps| - 1];
      NothingLost(cbs, init, n, c);
      ConservedStep(cbs, Run(cbs, init).value, steps[|steps| - 1], n, c);
    }
  }

  // ---- the portfolio's book

  ghost predicate BookOk(s: State)
  {
    && s.book == ApplyAll(EMPTY, OrderEvents(At(s.taken, PORTFOLIO)))
    && (s.last.Some? ==> Dispatch(s.book, s.last.value) == s.book)
  }

  lemma BookStep(cbs: Callbacks, s: State, step: Step)
    requires BookOk(s) && Enabled(s, step)
    ensures BookOk(Do(cbs, s, step))
  {
    hide OrderEvents, Dispatch, ApplyAll;
    var t := Do(cbs, s, step);
    if step == Take(PORTFOLIO) {
      var e := At(s.queues, PORTFOLIO)[0];
      OrderEventsConcat(At(s.taken, PORTFOLIO), [e]);
      AppendOne(OrderEvents(At(s.taken, PORTFOLIO)), e);
      RedispatchChangesNothing(s.book, e);
    } else {
      assert At(t.taken, PORTFOLIO) == At(s.taken, PORTFOLIO);
    }
  }

  lemma {:induction false} RunKeepsBook(cbs: Callbacks, steps: seq<Step>)
    requires Run(cbs, steps).Some?
    ensures BookOk(Run(cbs, steps).value)
  {
    if steps != [] {
      hide BookOk, Do, Enabled;
      RunKeepsBook(cbs, steps[..|steps| - 1]);
      BookStep(cbs, Run(cbs, steps[..|steps| - 1]).value, steps[|steps| - 1]);
    }
  }

  // ---- the steps of the event engine are the rounds of its loop

  /** Some deliveries, one after the other. */
  function DeliverAll(cbs: Callbacks, s: State, order: seq<string>): Option<State>
    decreases |order|
  {
    if order == [] then Some(s)
    else if Enabled(s, Deliver(order[0])) then DeliverAll(cbs, Do(cbs, s, Deliver(order[0])), order[1..])
    else None
  }

  lemma {:induction false} Delivering(cbs: Callbacks, before: map<Consumer, seq<Event>>, s: State, order: seq<string>)
    requires s.inHand.Some? && s.owed <= NamesFor(cbs, KindOf(s.inHand.value)).Keys
    requires CalledExcept(before, s.queues, s.inHand.value, NamesFor(cbs, KindOf(s.inHand.value)), s.owed)
    requires DeliverAll(cbs, s, order).Some? && DeliverAll(cbs, s, order).value.inHand.None?
    ensures var t, e := DeliverAll(cbs, s, order).value, s.inHand.value;
            CalledExcept(before, t.queues, e, NamesFor(cbs, KindOf(e)), {}) && t.engineQ == s.engineQ
    decreases |order|
  {
    hide CalledExcept;
    var e, name := s.inHand.value, order[0];
    CallAdds(before, s.queues, e, NamesFor(cbs, KindOf(e)), s.owed, name);
    var t := Do(cbs, s, Deliver(name));
    if t.inHand.Some? { Delivering(cbs, before, t, order[1..]); }
  }

  /** Taking an event and delivering it to all its callbacks, in whatever order, hands every consumer what a round
      of the engine's loop hands it. */
  lemma EngineRound(cbs: Callbacks, s: State, order: seq<string>)
    requires Enabled(s, EnginePop) && !s.engineQ[0].StopEvent?
    requires var t := DeliverAll(cbs, Do(cbs, s, EnginePop), order); t.Some? && t.value.inHand.None?
    ensures var t := DeliverAll(cbs, Do(cbs, s, EnginePop), order).value;
            t.engineQ == s.engineQ[1..] && forall c :: At(t.queues, c) == At(s.queues, c) + Handed(cbs, s.engineQ, c)
  {
    hide CalledExcept;
    var u, e := Do(cbs, s, EnginePop), s.engineQ[0];
    var names := NamesFor(cbs, KindOf(e));
    NoCallYet(s.queues, e, names);
    if u.inHand.Some? { Delivering(cbs, s.queues, u, order); }
    AllCalled(s.queues, DeliverAll(cbs, u, order).value.queues, e, names);
  }

  /** Such deliveries are always possible. */
  lemma {:induction false} DeliveriesExist(cbs: Callbacks, s: State) returns (order: seq<string>)
    requires s.inHand.Some? <==> s.owed != {}
    ensures DeliverAll(cbs, s, order).Some? && DeliverAll(cbs, s, order).value.inHand.None?
    decreases s.owed
  {
    if s.owed == {} {
      order := [];
    } else {
      var name :| name in s.owed;
      var rest := DeliveriesExist(cbs, Do(cbs, s, Deliver(name)));
      order := [name] + rest;
      assert order[1..] == rest;
    }
  }
}
