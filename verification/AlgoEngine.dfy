/** The execution algorithm: it follows a target position with one market order at a time, cancelling
    the order in flight when a new target arrives and retrying the target until the order is gone. */
module AlgoEngine {
  import opened Basics
  import opened Orders

  datatype AlgoEvent = Target(pos: real, retry: bool) | Snapshot(data: OrderData) | Tick | Timer

  /** What the engine asked the trading engine to do. */
  datatype Act = Sent(id: int) | Rejected | CancelSent(id: int)

  datatype Algo = Algo(target: real, curr: real, inflight: int, cancelled: bool, filled: real,
                       reqs: map<int, OrderReq>, latest: map<int, OrderData>,
                       q: seq<AlgoEvent>, log: seq<Act>, halted: bool)

  const START := Algo(0.0, 0.0, -1, false, 0.0, map[], map[], [], [], false)

  /** An order is finished when its status is final or it carries an error. */
  predicate Closing(d: OrderData) { !IsActive(d.status) || d.errorCode != 0 }

  function Abs(x: real): real { if x < 0.0 then -x else x }

  function Request(symbol: string, quantity: real): OrderReq
  {
    OrderReq(symbol, "", "algo_engine", if quantity < 0.0 then Sell else Buy, Abs(quantity), None)
  }

  /** send_order: `id` is what the trading engine returns, positive when the order went out. */
  function SendOrder(a: Algo, symbol: string, quantity: real, id: int): Algo
  {
    if id > 0 then
      a.(inflight := id, filled := 0.0, reqs := a.reqs[id := Request(symbol, quantity)], latest := a.latest - {id},
         log := a.log + [Sent(id)])
    else a.(log := a.log + [Rejected])
  }

  /** update_pos_cb. */
  function OnTarget(a: Algo, symbol: string, pos: real, retry: bool, id: int): Algo
  {
    if a.inflight > 0 then
      if !a.cancelled then
        a.(cancelled := true, log := a.log + [CancelSent(a.inflight)], q := a.q + [Target(pos, true)])
      else if !retry then a.(halted := true)
      else a.(q := a.q + [Target(pos, true)])
    else
      var b := a.(target := pos);
      var diff := pos - a.curr;
      if diff >= 1.0 || diff <= -1.0 then SendOrder(b, symbol, diff, id) else b
  }

  /** order_cb. */
  function OnSnapshot(a: Algo, d: OrderData): Algo
  {
    if d.orderId !in a.reqs then a
    else
      var diff := d.traded - a.filled;
      var b := a.(curr := if d.action == Buy then a.curr + diff else a.curr - diff, filled := d.traded,
                  latest := a.latest[d.orderId := d]);
      if Closing(d) then b.(inflight := -1, cancelled := false) else b
  }

  function OnEvent(a: Algo, symbol: string, e: AlgoEvent, id: int): Algo
  {
    match e
    case Target(pos, retry) => OnTarget(a, symbol, pos, retry, id)
    case Snapshot(d) => OnSnapshot(a, d)
    case Tick => a
    case Timer => a
  }

  class Engine {
    const symbol: string
    var target: real
    var curr: real
    var inflight: int
    var cancelled: bool
    var filled: real
    var reqs: map<int, OrderReq>
    var latest: map<int, OrderData>
    var q: seq<AlgoEvent>
    var log: seq<Act>
    var halted: bool

    function View(): Algo
      reads this
    {
      Algo(target, curr, inflight, cancelled, filled, reqs, latest, q, log, halted)
    }

    constructor (symbol: string)
      ensures View() == START && this.symbol == symbol
    {
      this.symbol := symbol;
      target, curr, inflight, cancelled, filled := 0.0, 0.0, -1, false, 0.0;
      reqs, latest, q, log, halted := map[], map[], [], [], false;
    }

    method SendOrderNow(quantity: real, id: int)
      modifies this
      ensures View() == SendOrder(old(View()), symbol, quantity, id)
    {
      var req := OrderReq(symbol, "", "algo_engine", if quantity < 0.0 then Sell else Buy,
                          if quantity < 0.0 then -quantity else quantity, None);
      if id > 0 {
        inflight := id;
        latest := latest - {id};
        reqs := reqs[id := req];
        filled := 0.0;
        log := log + [Sent(id)];
      } else {
        log := log + [Rejected];
      }
    }

    method UpdatePosCb(pos: real, retry: bool, id: int)
      modifies this
      ensures View() == OnTarget(old(View()), symbol, pos, retry, id)
    {
      if inflight > 0 {
        if !cancelled {
          log := log + [CancelSent(inflight)];
          cancelled := true;
        } else if !retry {
          halted := true;
          return;
        }
        q := q + [Target(pos, true)];
        return;
      }
      target := pos;
      var diff := target - curr;
      if diff >= 1.0 || diff <= -1.0 {
        SendOrderNow(diff, id);
      }
    }

    method OrderCb(d: OrderData)
      modifies this
      ensures View() == OnSnapshot(old(View()), d)
    {
      if d.orderId !in reqs {
        return;
      }
      var active := IsActive(d.status) && d.errorCode == 0;
      var diff := d.traded - filled;
      if d.action == Buy {
        curr := curr + diff;
      } else {
        curr := curr - diff;
      }
      filled := d.traded;
      latest := latest[d.orderId := d];
      if !active {
        inflight := -1;
        cancelled := false;
      }
    }

    /** One round of run_actions, where `id` is what sending an order would return. */
    method RunOnce(id: int)
      requires q != []
      modifies this
      ensures View() == OnEvent(old(View()).(q := old(q)[1..]), symbol, old(q)[0], id)
    {
      var e := q[0];
      q := q[1..];
      match e {
        case Target(pos, retry) => UpdatePosCb(pos, retry, id);
        case Snapshot(d) => OrderCb(d);
        case Tick =>
        case Timer =>
      }
    }
  }

  // ---- runs: events arrive at the back of the queue, and the action thread takes them from the front

  datatype Step = Arrive(e: AlgoEvent) | Act(id: int)

  predicate Enabled(a: Algo, step: Step) { !a.halted && (step.Act? ==> a.q != []) }

  /** What became of the latest target: close enough to need no order, an order sent, or refused. */
  datatype Aim = NoOrder | Order(id: int) | Refused

  /** The engine, the orders whose closing snapshot it has processed, and its latest aim. */
  datatype State = State(a: Algo, closed: set<int>, aim: Aim)

  function AimOf(s: State, e: AlgoEvent, id: int): Aim
  {
    if e.Target? && s.a.inflight <= 0 then
      var diff := e.pos - s.a.curr;
      if diff < 1.0 && diff > -1.0 then NoOrder else if id > 0 then Order(id) else Refused
    else s.aim
  }

  function Process(s: State, symbol: string, e: AlgoEvent, id: int): State
  {
    State(OnEvent(s.a, symbol, e, id),
          if e.Snapshot? && e.data.orderId in s.a.reqs && Closing(e.data) then s.closed + {e.data.orderId} else s.closed,
          AimOf(s, e, id))
  }

  function SnapshotIn(e: AlgoEvent): seq<OrderData> { if e.Snapshot? then [e.data] else [] }

  /** A run, with the snapshots processed so far. */
  datatype Traced = Traced(s: State, processed: seq<OrderData>)

  function Trace(symbol: string, steps: seq<Step>): Option<Traced>
  {
    if steps == [] then Some(Traced(State(START, {}, NoOrder), []))
    else
      var before := Trace(symbol, steps[..|steps| - 1]);
      if before.None? || !Enabled(before.value.s.a, steps[|steps| - 1]) then None
      else Some(Advance(before.value, symbol, steps[|steps| - 1]))
  }

  function Advance(t: Traced, symbol: string, step: Step): Traced
    requires Enabled(t.s.a, step)
  {
    match step
    case Arrive(e) => t.(s := t.s.(a := t.s.a.(q := t.s.a.q + [e])))
    case Act(id) =>
      var e := t.s.a.q[0];
      Traced(Process(t.s.(a := t.s.a.(q := t.s.a.q[1..])), symbol, e, id),
             t.processed + SnapshotIn(e))
  }

  // ---- with no assumption about the broker: no order is cancelled twice

  /** Entry k sends order id, and nothing has been cancelled since. */
  ghost predicate SentUncancelled(log: seq<Act>, id: int, k: int)
  {
    0 <= k < |log| && log[k] == Sent(id) && forall j :: k < j < |log| ==> !log[j].CancelSent?
  }

  /** Entry k sends the order that entry j cancels, and nothing is cancelled in between. */
  ghost predicate SentBefore(log: seq<Act>, j: int, k: int)
  {
    0 <= k < j < |log| && log[j].CancelSent? && log[k] == Sent(log[j].id) && forall i :: k < i < j ==> !log[i].CancelSent?
  }

  ghost predicate CancelsFollowSends(log: seq<Act>)
  {
    forall j :: 0 <= j < |log| && log[j].CancelSent? ==> exists k :: SentBefore(log, j, k)
  }

  ghost predicate CancelInv(a: Algo)
  {
    && (a.cancelled ==> a.inflight > 0)
    && CancelsFollowSends(a.log)
    && (a.inflight > 0 && !a.cancelled ==> exists k :: SentUncancelled(a.log, a.inflight, k))
  }

  lemma LogGrows(log: seq<Act>, entry: Act)
    requires CancelsFollowSends(log)
    requires entry.CancelSent? ==> exists k :: SentUncancelled(log, entry.id, k)
    ensures CancelsFollowSends(log + [entry])
  {
    var grown := log + [entry];
    forall j | 0 <= j < |grown| && grown[j].CancelSent?
      ensures exists k :: SentBefore(grown, j, k)
    {
      if j < |log| {
        var k :| SentBefore(log, j, k);
        assert SentBefore(grown, j, k);
      } else {
        var k :| SentUncancelled(log, entry.id, k);
        assert SentBefore(grown, j, k);
      }
    }
  }

  lemma CancelStep(t: Traced, symbol: string, step: Step)
    requires CancelInv(t.s.a) && Enabled(t.s.a, step)
    ensures CancelInv(Advance(t, symbol, step).s.a)
  {
    var a, b := t.s.a, Advance(t, symbol, step).s.a;
    if b.log == a.log + [Rejected] {
      LogGrows(a.log, Rejected);
      assert b.log[|a.log|] == Rejected;
    } else if b.log != a.log {
      LogGrows(a.log, b.log[|a.log|]);
      assert b.log == a.log + [b.log[|a.log|]];
      if b.log[|a.log|].Sent? { assert SentUncancelled(b.log, b.inflight, |a.log|); }
    }
  }

  lemma {:induction false} CancelRun(symbol: string, steps: seq<Step>)
    requires Trace(symbol, steps).Some?
    ensures CancelInv(Trace(symbol, steps).value.s.a)
  {
    if steps != [] {
      hide CancelInv, Advance;
      CancelRun(symbol, steps[..|steps| - 1]);
      CancelStep(Trace(symbol, steps[..|steps| - 1]).value, symbol, steps[|steps| - 1]);
    } else {
      assert CancelInv(START);
    }
  }

  ghost predicate FreshIds(log: seq<Act>)
  {
    forall i, j :: 0 <= i < j < |log| && log[i].Sent? && log[j].Sent? ==> log[i].id != log[j].id
  }

  /** Whatever the broker sends: each cancellation follows a sending of its own order that comes after
      every earlier cancellation.  With order ids never reused, no order is cancelled twice. */
  lemma NoOrderCancelledTwice(symbol: string, steps: seq<Step>, i: nat, j: nat)
    requires Trace(symbol, steps).Some?
    requires var log := Trace(symbol, steps).value.s.a.log; i < j < |log| && log[i].CancelSent? && log[j].CancelSent?
    ensures var log := Trace(symbol, steps).value.s.a.log;
            (exists k :: i < k < j && log[k] == Sent(log[j].id)) && (FreshIds(log) ==> log[i].id != log[j].id)
  {
    hide Trace;
    CancelRun(symbol, steps);
    var log := Trace(symbol, steps).value.s.a.log;
    var m :| SentBefore(log, i, m);
    var k :| SentBefore(log, j, k);
  }

  // ---- with a broker that is silent about finished orders

  /** The facts a run depends on: ids are never reused, and a snapshot of an own order shows the side
      and symbol requested and does not follow a closing snapshot of that order. */
  predicate Allowed(a: Algo, closed: set<int>, symbol: string, e: AlgoEvent, id: int)
  {
    id !in a.reqs
    && (e.Snapshot? && e.data.orderId in a.reqs ==>
          e.data.orderId !in closed && e.data.action == a.reqs[e.data.orderId].action && e.data.symbol == symbol)
  }

  /** What remains of an order's request, signed. */
  function Remaining(a: Algo, id: int): real
    requires id in a.reqs
  {
    Signed(a.reqs[id].action, a.reqs[id].quantity - (if id in a.latest then a.latest[id].traded else 0.0))
  }

  ghost predicate Inv(s: State, symbol: string)
  {
    var a := s.a;
    // the position is the signed sum of what its orders have traded
    && a.curr == Total(a.latest, symbol).pos
    && (forall id :: id in a.latest ==> id in a.reqs && id > 0 && a.latest[id].symbol == symbol
                                              && a.latest[id].action == a.reqs[id].action)
    // at most one own order is live, and it is the one in flight
    && (forall id :: id in a.reqs ==> id > 0 && (id == a.inflight <==> id !in s.closed))
    && (a.inflight == -1 || a.inflight in a.reqs) && (forall id :: id in s.closed ==> id in a.reqs)
    && (a.inflight in a.reqs ==> a.filled == if a.inflight in a.latest then a.latest[a.inflight].traded else 0.0)
    && (a.cancelled ==> a.inflight > 0)
    // the distance to the target is what the order for it still has to trade
    && (s.aim.Order? ==> s.aim.id in a.reqs && a.target - a.curr == Remaining(a, s.aim.id))
    && (s.aim.NoOrder? ==> -1.0 < a.target - a.curr < 1.0)
    && (a.inflight > 0 ==> s.aim == Order(a.inflight))
  }

  lemma SendKeepsInv(s: State, symbol: string, pos: real, id: int)
    requires Inv(s, symbol) && s.a.inflight <= 0 && id !in s.a.reqs
    requires pos - s.a.curr >= 1.0 || pos - s.a.curr <= -1.0
    ensures Inv(State(SendOrder(s.a.(target := pos), symbol, pos - s.a.curr, id), s.closed,
                      if id > 0 then Order(id) else Refused), symbol)
  {
    hide Total;
    assert s.a.latest - {id} == s.a.latest by { assert id !in s.a.latest; }
  }

  lemma TargetKeepsInv(s: State, symbol: string, pos: real, retry: bool, id: int)
    requires Inv(s, symbol) && Allowed(s.a, s.closed, symbol, Target(pos, retry), id)
    ensures Inv(Process(s, symbol, Target(pos, retry), id), symbol)
  {
    hide SendOrder, Total;
    if s.a.inflight <= 0 && (pos - s.a.curr >= 1.0 || pos - s.a.curr <= -1.0) { SendKeepsInv(s, symbol, pos, id); }
  }

  lemma SnapshotMovesPosition(a: Algo, symbol: string, d: OrderData, traded: real)
    requires a.curr == Total(a.latest, symbol).pos && d.symbol == symbol
    requires if d.orderId in a.latest then a.latest[d.orderId].symbol == symbol
                  && a.latest[d.orderId].action == d.action && a.latest[d.orderId].traded == traded
             else traded == 0.0
    ensures Total(a.latest[d.orderId := d], symbol).pos ==
            if d.action == Buy then a.curr + (d.traded - traded) else a.curr - (d.traded - traded)
  {
    hide Total;
    TotalUpdate(a.latest, symbol, d);
  }

  lemma OpenSnapshotKeepsInv(s: State, symbol: string, d: OrderData, id: int)
    requires Inv(s, symbol) && Allowed(s.a, s.closed, symbol, Snapshot(d), id) && d.orderId in s.a.reqs && !Closing(d)
    requires var a := s.a;
             Total(a.latest[d.orderId := d], symbol).pos ==
             if d.action == Buy then a.curr + (d.traded - a.filled) else a.curr - (d.traded - a.filled)
    ensures Inv(Process(s, symbol, Snapshot(d), id), symbol)
  {
    hide Total, Closing;
    assert d.orderId == s.a.inflight;
  }

  lemma ClosingSnapshotKeepsInv(s: State, symbol: string, d: OrderData, id: int)
    requires Inv(s, symbol) && Allowed(s.a, s.closed, symbol, Snapshot(d), id) && d.orderId in s.a.reqs && Closing(d)
    requires var a := s.a;
             Total(a.latest[d.orderId := d], symbol).pos ==
             if d.action == Buy then a.curr + (d.traded - a.filled) else a.curr - (d.traded - a.filled)
    ensures Inv(Process(s, symbol, Snapshot(d), id), symbol)
  {
    hide Total, Closing;
    assert d.orderId == s.a.inflight;
  }

  lemma SnapshotKeepsInv(s: State, symbol: string, d: OrderData, id: int)
    requires Inv(s, symbol) && Allowed(s.a, s.closed, symbol, Snapshot(d), id)
    ensures Inv(Process(s, symbol, Snapshot(d), id), symbol)
  {
    hide Total;
    if d.orderId in s.a.reqs {
      assert d.orderId == s.a.inflight;
      SnapshotMovesPosition(s.a, symbol, d, s.a.filled);
      hide Process;
      if Closing(d) { ClosingSnapshotKeepsInv(s, symbol, d, id); } else { OpenSnapshotKeepsInv(s, symbol, d, id); }
    } else {
      hide Inv;
      assert Process(s, symbol, Snapshot(d), id) == s;
    }
  }

  // ---- whole runs, with the assumption stated on what arrives

  function Snapshots(es: seq<AlgoEvent>): seq<OrderData>
  {
    if es == [] then [] else SnapshotIn(es[0]) + Snapshots(es[1..])
  }

  function ArrivalIn(step: Step): seq<OrderData> { if step.Arrive? then SnapshotIn(step.e) else [] }

  function Arrivals(steps: seq<Step>): seq<OrderData>
  {
    if steps == [] then []
    else Arrivals(steps[..|steps| - 1]) + ArrivalIn(steps[|steps| - 1])
  }

  /** The ids that sending an order would return have not been used. */
  ghost predicate Fresh(symbol: string, steps: seq<Step>)
  {
    forall n :: 0 <= n < |steps| && steps[n].Act? && Trace(symbol, steps[..n]).Some? ==>
      steps[n].id !in Trace(symbol, steps[..n]).value.s.a.reqs
  }

  /** The broker sends nothing for an order after its first closing snapshot. */
  ghost predicate Quiet(ds: seq<OrderData>)
  {
    forall i, j :: 0 <= i < j < |ds| && ds[i].orderId == ds[j].orderId ==> !Closing(ds[i])
  }

  /** Snapshots of own orders show the side and symbol that were requested. */
  ghost predicate Faithful(ds: seq<OrderData>, reqs: map<int, OrderReq>, symbol: string)
  {
    forall d :: d in ds && d.orderId in reqs ==> d.action == reqs[d.orderId].action && d.symbol == symbol
  }

  lemma {:induction false} SnapshotsAppend(es: seq<AlgoEvent>, e: AlgoEvent)
    ensures Snapshots(es + [e]) == Snapshots(es) + SnapshotIn(e)
  {
    hide SnapshotIn;
    if es == [] {
      assert es + [e] == [e];
    } else {
      assert (es + [e])[1..] == es[1..] + [e];
      SnapshotsAppend(es[1..], e);
    }
  }

  /** The queue is first in, first out, and only closing snapshots close an order. */
  ghost predicate QueueInv(t: Traced, arrivals: seq<OrderData>)
  {
    && t.processed + Snapshots(t.s.a.q) == arrivals
    && forall id :: id in t.s.closed ==>
         exists i :: 0 <= i < |t.processed| && t.processed[i].orderId == id && Closing(t.processed[i])
  }

  lemma AdvanceQueue(t: Traced, symbol: string, step: Step, arrivals: seq<OrderData>)
    requires Enabled(t.s.a, step) && QueueInv(t, arrivals)
    ensures QueueInv(Advance(t, symbol, step), arrivals + ArrivalIn(step))
  {
    hide Advance, Closing;
    AdvanceSnapshots(t, symbol, step);
    AdvanceClosed(t, symbol, step);
  }

  /** Handling an event puts at most a target back into the queue. */
  lemma RequeuesTargets(a: Algo, symbol: string, e: AlgoEvent, id: int)
    ensures Snapshots(OnEvent(a, symbol, e, id).q) == Snapshots(a.q)
  {
    hide Snapshots, SnapshotIn;
    if e.Target? {
      SnapshotsAppend(a.q, Target(e.pos, true));
      TargetHasNone(e.pos);
      TargetQueue(a, symbol, e.pos, e.retry, id);
    } else {
      assert OnEvent(a, symbol, e, id).q == a.q;
    }
  }

  lemma TargetHasNone(pos: real)
    ensures SnapshotIn(Target(pos, true)) == []
  {
  }

  lemma TargetQueue(a: Algo, symbol: string, pos: real, retry: bool, id: int)
    ensures var b := OnTarget(a, symbol, pos, retry, id); b.q == a.q || b.q == a.q + [Target(pos, true)]
  {
  }

  lemma AdvanceSnapshots(t: Traced, symbol: string, step: Step)
    requires Enabled(t.s.a, step)
    ensures var u := Advance(t, symbol, step);
            u.processed + Snapshots(u.s.a.q) == t.processed + Snapshots(t.s.a.q) + ArrivalIn(step)
  {
    if step.Arrive? {
      SnapshotsAppend(t.s.a.q, step.e);
    } else {
      assert Snapshots(t.s.a.q) == SnapshotIn(t.s.a.q[0]) + Snapshots(t.s.a.q[1..]);
      hide OnEvent, AimOf, Snapshots;
      RequeuesTargets(t.s.a.(q := t.s.a.q[1..]), symbol, t.s.a.q[0], step.id);
    }
  }

  lemma AdvanceClosed(t: Traced, symbol: string, step: Step)
    requires Enabled(t.s.a, step)
    requires forall id :: id in t.s.closed ==>
               exists i :: 0 <= i < |t.processed| && t.processed[i].orderId == id && Closing(t.processed[i])
    ensures var u := Advance(t, symbol, step);
            forall id :: id in u.s.closed ==>
              exists i :: 0 <= i < |u.processed| && u.processed[i].orderId == id && Closing(u.processed[i])
  {
    hide OnEvent, AimOf;
    var u := Advance(t, symbol, step);
    forall x | x in u.s.closed
      ensures exists i :: 0 <= i < |u.processed| && u.processed[i].orderId == x && Closing(u.processed[i])
    {
      if x in t.s.closed {
        var i :| 0 <= i < |t.processed| && t.processed[i].orderId == x && Closing(t.processed[i]);
        assert u.processed[i] == t.processed[i];
      } else {
        assert u.processed[|t.processed|].orderId == x;
      }
    }
  }

  lemma AdvanceReqs(t: Traced, symbol: string, step: Step)
    requires Enabled(t.s.a, step) && (step.Act? ==> step.id !in t.s.a.reqs)
    ensures forall id :: id in t.s.a.reqs ==>
              id in Advance(t, symbol, step).s.a.reqs && Advance(t, symbol, step).s.a.reqs[id] == t.s.a.reqs[id]
  {
  }

  lemma NextIsNotClosed(t: Traced, arrivals: seq<OrderData>, d: OrderData)
    requires QueueInv(t, arrivals) && Quiet(arrivals) && t.s.a.q != [] && t.s.a.q[0] == Snapshot(d)
    ensures d in arrivals && d.orderId !in t.s.closed
  {
    assert arrivals[|t.processed|] == d;
    assert forall i :: 0 <= i < |t.processed| ==> arrivals[i] == t.processed[i];
  }

  lemma AdvanceInv(t: Traced, symbol: string, step: Step, arrivals: seq<OrderData>)
    requires Enabled(t.s.a, step) && Inv(t.s, symbol) && QueueInv(t, arrivals) && (step.Act? ==> step.id !in t.s.a.reqs)
    requires Quiet(arrivals) && Faithful(arrivals, t.s.a.reqs, symbol)
    ensures Inv(Advance(t, symbol, step).s, symbol)
  {
    hide Inv, QueueInv, Process, Quiet;
    if step.Arrive? {
      QueueIrrelevant(t.s, symbol, t.s.a.q + [step.e]);
    } else {
      var e, s := t.s.a.q[0], t.s.(a := t.s.a.(q := t.s.a.q[1..]));
      QueueIrrelevant(t.s, symbol, t.s.a.q[1..]);
      match e {
        case Target(pos, retry) => TargetKeepsInv(s, symbol, pos, retry, step.id);
        case Snapshot(d) =>
          NextIsNotClosed(t, arrivals, d);
          SnapshotKeepsInv(s, symbol, d, step.id);
        case Tick => PassKeepsInv(s, symbol, e, step.id);
        case Timer => PassKeepsInv(s, symbol, e, step.id);
      }
    }
  }

  lemma QueueIrrelevant(s: State, symbol: string, q: seq<AlgoEvent>)
    requires Inv(s, symbol)
    ensures Inv(s.(a := s.a.(q := q)), symbol)
  {
    hide Total;
  }

  lemma PassKeepsInv(s: State, symbol: string, e: AlgoEvent, id: int)
    requires Inv(s, symbol) && (e.Tick? || e.Timer?)
    ensures Inv(Process(s, symbol, e, id), symbol)
  {
  }

  /** Every run keeps the invariant, if ids are fresh, the broker is quiet about finished orders, and
      snapshots are faithful. */
  lemma {:induction false} RunKeepsInv(symbol: string, steps: seq<Step>)
    requires Trace(symbol, steps).Some? && Fresh(symbol, steps) && Quiet(Arrivals(steps))
    requires Faithful(Arrivals(steps), Trace(symbol, steps).value.s.a.reqs, symbol)
    ensures Inv(Trace(symbol, steps).value.s, symbol) && QueueInv(Trace(symbol, steps).value, Arrivals(steps))
  {
    if steps != [] {
      hide Inv, Advance, QueueInv;
      var init, step := steps[..|steps| - 1], steps[|steps| - 1];
      var t := Trace(symbol, init).value;
      FreshBefore(symbol, steps);
      AdvanceReqs(t, symbol, step);
      assert Arrivals(init) <= Arrivals(steps);
      RunKeepsInv(symbol, init);
      AdvanceQueue(t, symbol, step, Arrivals(init));
      AdvanceInv(t, symbol, step, Arrivals(init));
    }
  }

  /** An own order that has not been seen to finish. */
  predicate Live(s: State, id: int) { id in s.a.reqs && id !in s.closed }

  /** The latest target has been met: by no order, or by one that has filled completely. */
  predicate Met(s: State)
  {
    s.aim.NoOrder?
    || (s.aim.Order? && s.aim.id in s.a.latest && s.aim.id in s.a.reqs
        && s.a.latest[s.aim.id].traded == s.a.reqs[s.aim.id].quantity)
  }

  /** The position is the signed sum of the latest traded quantities of own orders, only the order in flight is
      live, a cancellation is pending only while one is, and when none is in flight and the target has been met
      the position is within one of it. */
  ghost predicate InOrder(s: State, symbol: string)
  {
    && s.a.curr == Total(s.a.latest, symbol).pos
    && (forall id :: Live(s, id) ==> id == s.a.inflight)
    && (s.a.cancelled ==> Live(s, s.a.inflight))
    && (s.a.inflight <= 0 && Met(s) ==> -1.0 < s.a.target - s.a.curr < 1.0)
  }

  lemma InvInOrder(s: State, symbol: string)
    requires Inv(s, symbol)
    ensures InOrder(s, symbol)
  {
    hide Total;
  }

  /** In every run with a broker that is silent about finished orders, all is in order. */
  lemma EveryRun(symbol: string, steps: seq<Step>)
    requires Trace(symbol, steps).Some? && Fresh(symbol, steps) && Quiet(Arrivals(steps))
    requires Faithful(Arrivals(steps), Trace(symbol, steps).value.s.a.reqs, symbol)
    ensures InOrder(Trace(symbol, steps).value.s, symbol)
  {
    hide Inv, InOrder;
    RunKeepsInv(symbol, steps);
    InvInOrder(Trace(symbol, steps).value.s, symbol);
  }

  // ---- which statuses finish an order, and what follows

  /** A snapshot of an own order with a final status or an error frees the engine. */
  lemma FinalStatusFrees(a: Algo, d: OrderData)
    requires d.orderId in a.reqs
    requires d.status in {Filled, Cancelled, ApiCancelled, Inactive} || d.errorCode != 0
    ensures OnSnapshot(a, d).inflight == -1 && !OnSnapshot(a, d).cancelled
  {
  }

  /** A snapshot of an order that is still working leaves it in flight, and a cancellation pending. */
  lemma WorkingStatusHolds(a: Algo, d: OrderData)
    requires d.status in {PendingSubmit, PendingCancel, PreSubmitted, Submitted} && d.errorCode == 0
    ensures OnSnapshot(a, d).inflight == a.inflight && OnSnapshot(a, d).cancelled == a.cancelled
  {
  }

  /** What is ordered: the quantity without its sign, to buy when it is positive and to sell when it is negative. */
  lemma OrderedIs(a: Algo, symbol: string, quantity: real, id: int)
    requires id > 0
    ensures var b := SendOrder(a, symbol, quantity, id);
            && id in b.reqs && b.reqs[id].symbol == symbol && b.reqs[id].source == "algo_engine"
            && b.reqs[id].orderId == None && b.reqs[id].quantity >= 0.0
            && (quantity > 0.0 ==> b.reqs[id].action == Buy && b.reqs[id].quantity == quantity)
            && (quantity < 0.0 ==> b.reqs[id].action == Sell && b.reqs[id].quantity == -quantity)
  {
  }

  lemma {:induction false} PrefixRuns(symbol: string, steps: seq<Step>, k: nat)
    requires Trace(symbol, steps).Some? && k <= |steps|
    ensures Trace(symbol, steps[..k]).Some?
    ensures k < |steps| ==> Enabled(Trace(symbol, steps[..k]).value.s.a, steps[k])
                            && Trace(symbol, steps[..k + 1])
                               == Some(Advance(Trace(symbol, steps[..k]).value, symbol, steps[k]))
  {
    hide Advance, Enabled;
    if k < |steps| {
      var init := steps[..|steps| - 1];
      assert k < |init| ==> init[..k + 1] == steps[..k + 1];
      assert init[..k] == steps[..k] && steps[..k + 1][..k] == steps[..k];
      if k < |init| { PrefixRuns(symbol, init, k); } else { assert steps[..k + 1] == steps && init == steps[..k]; }
    } else {
      assert steps[..k] == steps;
    }
  }

  /** The run before step k. */
  function At(symbol: string, steps: seq<Step>, k: nat): Traced
    requires Trace(symbol, steps).Some? && k <= |steps|
  {
    PrefixRuns(symbol, steps, k);
    Trace(symbol, steps[..k]).value
  }

  /** The event that step k takes. */
  function Taken(symbol: string, steps: seq<Step>, k: nat): Option<AlgoEvent>
    requires Trace(symbol, steps).Some? && k < |steps|
  {
    PrefixRuns(symbol, steps, k);
    if steps[k].Act? then Some(At(symbol, steps, k).s.a.q[0]) else None
  }

  /** Step n takes a snapshot that ends an own order, and step m the next target after it. */
  predicate NextTarget(symbol: string, steps: seq<Step>, n: nat, d: OrderData, m: nat, pos: real, retry: bool)
    requires Trace(symbol, steps).Some? && n < m < |steps|
  {
    && Taken(symbol, steps, n) == Some(Snapshot(d)) && d.orderId in At(symbol, steps, n).s.a.reqs
    && (d.status in {Filled, Cancelled, ApiCancelled, Inactive} || d.errorCode != 0)
    && (forall k :: n < k < m && Taken(symbol, steps, k).Some? ==> !Taken(symbol, steps, k).value.Target?)
    && Taken(symbol, steps, m) == Some(Target(pos, retry))
  }

  lemma AtNext(symbol: string, steps: seq<Step>, k: nat)
    requires Trace(symbol, steps).Some? && k < |steps|
    ensures var t := At(symbol, steps, k);
            Enabled(t.s.a, steps[k]) && At(symbol, steps, k + 1) == Advance(t, symbol, steps[k])
  {
    hide Trace, Advance, Enabled;
    PrefixRuns(symbol, steps, k);
  }

  /** Without a target the engine, once free, stays free. */
  lemma StaysFree(symbol: string, steps: seq<Step>, k: nat)
    requires Trace(symbol, steps).Some? && k < |steps| && At(symbol, steps, k).s.a.inflight == -1
    requires Taken(symbol, steps, k).Some? ==> !Taken(symbol, steps, k).value.Target?
    ensures var s, t := At(symbol, steps, k).s, At(symbol, steps, k + 1).s;
            t.a.inflight == -1 && t.a.log == s.a.log && t.a.target == s.a.target && t.a.reqs == s.a.reqs && t.aim == s.aim
  {
    hide Trace, At;
    AtNext(symbol, steps, k);
  }

  lemma FreedBy(symbol: string, steps: seq<Step>, n: nat, d: OrderData)
    requires Trace(symbol, steps).Some? && n < |steps| && Taken(symbol, steps, n) == Some(Snapshot(d))
    requires d.orderId in At(symbol, steps, n).s.a.reqs
    requires d.status in {Filled, Cancelled, ApiCancelled, Inactive} || d.errorCode != 0
    ensures var s, t := At(symbol, steps, n).s, At(symbol, steps, n + 1).s;
            t.a.inflight == -1 && t.a.log == s.a.log && t.a.target == s.a.target && t.a.reqs == s.a.reqs && t.aim == s.aim
  {
    hide Trace, At;
    AtNext(symbol, steps, n);
  }

  lemma FreeUntilTarget(symbol: string, steps: seq<Step>, n: nat, d: OrderData, m: nat, pos: real, retry: bool)
    requires Trace(symbol, steps).Some? && n < m < |steps| && NextTarget(symbol, steps, n, d, m, pos, retry)
    ensures var s, t := At(symbol, steps, n).s, At(symbol, steps, m).s;
            t.a.inflight == -1 && t.a.log == s.a.log && t.a.target == s.a.target && t.a.reqs == s.a.reqs && t.aim == s.aim
  {
    hide Trace, At, Taken;
    FreedBy(symbol, steps, n, d);
    var s := At(symbol, steps, n).s;
    for k := n + 1 to m
      invariant var t := At(symbol, steps, k).s;
                t.a.inflight == -1 && t.a.log == s.a.log && t.a.target == s.a.target && t.a.reqs == s.a.reqs && t.aim == s.aim
    {
      StaysFree(symbol, steps, k);
    }
  }

  /** For any broker: once a snapshot that ends an own order has been processed, the next target is met by no order
      when it is within one of the position, and otherwise answered by sending at once. It is never answered by a
      cancellation, put back, or refused for coming too soon. */
  lemma TargetServedAfterEnd(symbol: string, steps: seq<Step>, n: nat, d: OrderData, m: nat, pos: real, retry: bool)
    requires Trace(symbol, steps).Some? && n < m < |steps| && NextTarget(symbol, steps, n, d, m, pos, retry)
    ensures var before, after := At(symbol, steps, m).s.a, At(symbol, steps, m + 1).s.a;
            && before.log == At(symbol, steps, n).s.a.log
            && before.q != [] && after.q == before.q[1..] && !after.halted && after.target == pos
            && after.log == before.log + (if -1.0 < pos - before.curr < 1.0 then []
                                          else if steps[m].Act? && steps[m].id > 0 then [Sent(steps[m].id)]
                                          else [Rejected])
  {
    hide Trace, At;
    FreeUntilTarget(symbol, steps, n, d, m, pos, retry);
    AtNext(symbol, steps, m);
  }

  /** The broker is taken to be silent about finished orders and faithful, and ids are fresh. */
  ghost predicate GoodRun(symbol: string, steps: seq<Step>)
    requires Trace(symbol, steps).Some?
  {
    && Fresh(symbol, steps) && Quiet(Arrivals(steps))
    && Faithful(Arrivals(steps), Trace(symbol, steps).value.s.a.reqs, symbol)
  }

  lemma {:induction false} InvAt(symbol: string, steps: seq<Step>, k: nat)
    requires Trace(symbol, steps).Some? && GoodRun(symbol, steps) && k <= |steps|
    ensures Inv(At(symbol, steps, k).s, symbol)
    ensures QueueInv(At(symbol, steps, k), Arrivals(steps[..k])) && Quiet(Arrivals(steps[..k]))
  {
    hide Inv, Advance, QueueInv;
    if k == |steps| {
      assert steps[..k] == steps;
      RunKeepsInv(symbol, steps);
    } else {
      var init, step := steps[..|steps| - 1], steps[|steps| - 1];
      FreshBefore(symbol, steps);
      AdvanceReqs(Trace(symbol, init).value, symbol, step);
      assert Arrivals(init) <= Arrivals(steps);
      InvAt(symbol, init, k);
      assert init[..k] == steps[..k];
    }
  }

  /** A free engine with a silent broker is told nothing of its orders. */
  lemma NoNews(symbol: string, steps: seq<Step>, k: nat)
    requires Trace(symbol, steps).Some? && GoodRun(symbol, steps) && k < |steps| && At(symbol, steps, k).s.a.inflight == -1
    requires Taken(symbol, steps, k).Some? ==> !Taken(symbol, steps, k).value.Target?
    ensures var a, b := At(symbol, steps, k).s.a, At(symbol, steps, k + 1).s.a;
            b.curr == a.curr && b.latest == a.latest
  {
    hide Trace, At, QueueInv, Quiet, Total;
    InvAt(symbol, steps, k);
    AtNext(symbol, steps, k);
    var e := Taken(symbol, steps, k);
    if e.Some? && e.value.Snapshot? {
      NextIsNotClosed(At(symbol, steps, k), Arrivals(steps[..k]), e.value.data);
    }
  }

  lemma NoNewsUntilTarget(symbol: string, steps: seq<Step>, n: nat, d: OrderData, m: nat, pos: real, retry: bool)
    requires Trace(symbol, steps).Some? && GoodRun(symbol, steps) && n < m < |steps| && NextTarget(symbol, steps, n, d, m, pos, retry)
    ensures At(symbol, steps, m).s.a.curr == At(symbol, steps, n + 1).s.a.curr
  {
    hide Trace, At, Taken, GoodRun;
    FreedBy(symbol, steps, n, d);
    for k := n + 1 to m
      invariant At(symbol, steps, k).s.a.inflight == -1
      invariant At(symbol, steps, k).s.a.curr == At(symbol, steps, n + 1).s.a.curr
    {
      StaysFree(symbol, steps, k);
      NoNews(symbol, steps, k);
    }
  }

  /** When the order in flight has filled completely the position is the target it was for. */
  lemma FullFillReachesTarget(symbol: string, steps: seq<Step>, n: nat, d: OrderData)
    requires Trace(symbol, steps).Some? && GoodRun(symbol, steps) && n < |steps| && Taken(symbol, steps, n) == Some(Snapshot(d))
    requires var a := At(symbol, steps, n).s.a;
             d.orderId in a.reqs && d.orderId == a.inflight && d.status == Filled && d.traded == a.reqs[d.orderId].quantity
    ensures At(symbol, steps, n + 1).s.a.curr == At(symbol, steps, n).s.a.target
  {
    hide Trace, At, Total, QueueInv, Quiet;
    InvAt(symbol, steps, n);
    InvAt(symbol, steps, n + 1);
    AtNext(symbol, steps, n);
  }

  /** With a silent broker: after the full fill of the order in flight, the next target is met by no order when it is
      within one of the target before, and otherwise by an order for exactly the difference of the two targets. */
  lemma TargetAfterFullFill(symbol: string, steps: seq<Step>, n: nat, d: OrderData, m: nat, pos: real, retry: bool)
    requires Trace(symbol, steps).Some? && GoodRun(symbol, steps) && n < m < |steps| && NextTarget(symbol, steps, n, d, m, pos, retry)
    requires var a := At(symbol, steps, n).s.a;
             d.orderId == a.inflight && d.status == Filled && d.traded == a.reqs[d.orderId].quantity
    ensures var was, log := At(symbol, steps, n).s.a.target, At(symbol, steps, n).s.a.log;
            var after := At(symbol, steps, m + 1).s.a;
            steps[m].Act? &&
            if -1.0 < pos - was < 1.0 then after.log == log && after.inflight == -1
            else if steps[m].id <= 0 then after.log == log + [Rejected]
            else
              && after.log == log + [Sent(steps[m].id)] && after.inflight == steps[m].id && after.inflight in after.reqs
              && after.reqs[after.inflight].action == (if pos > was then Buy else Sell)
              && after.reqs[after.inflight].quantity == (if pos > was then pos - was else was - pos)
  {
    hide Trace, At, GoodRun;
    TargetServedAfterEnd(symbol, steps, n, d, m, pos, retry);
    FreeUntilTarget(symbol, steps, n, d, m, pos, retry);
    NoNewsUntilTarget(symbol, steps, n, d, m, pos, retry);
    FullFillReachesTarget(symbol, steps, n, d);
    AtNext(symbol, steps, m);
    var a := At(symbol, steps, m).s.a;
    if steps[m].Act? && steps[m].id > 0 { OrderedIs(a, symbol, pos - a.curr, steps[m].id); }
  }

  // ---- late snapshots: what happens without the silence of the broker

  /** A snapshot of a finished order, with the side and symbol requested. */
  predicate Late(s: State, symbol: string, d: OrderData)
  {
    d.orderId in s.closed && d.orderId in s.a.reqs && d.symbol == symbol && d.action == s.a.reqs[d.orderId].action
  }

  function TradedBefore(a: Algo, id: int): real { if id in a.latest then a.latest[id].traded else 0.0 }

  /** A late snapshot keeps the position right exactly when its order had traded what the engine counts as filled. */
  lemma LateSnapshot(s: State, symbol: string, d: OrderData)
    requires Inv(s, symbol) && Late(s, symbol, d)
    ensures var a := OnSnapshot(s.a, d);
            a.curr == Total(a.latest, symbol).pos <==> TradedBefore(s.a, d.orderId) == s.a.filled
  {
    SnapshotMovesPosition(s.a, symbol, d, TradedBefore(s.a, d.orderId));
  }

  /** When a late snapshot does no harm. With an order in flight it must not free the engine, and must agree with
      what that order has traded; otherwise its order must have traded what the engine counts as filled, and the
      position may move only towards what the latest target asked of this order. */
  predicate Harmless(s: State, d: OrderData)
  {
    var a := s.a;
    var curr := if d.action == Buy then a.curr + (d.traded - a.filled) else a.curr - (d.traded - a.filled);
    && TradedBefore(a, d.orderId) == a.filled
    && (a.inflight > 0 ==> !Closing(d) && d.traded == a.filled)
    && (a.inflight <= 0 && s.aim.Order? && s.aim.id != d.orderId ==> d.traded == a.filled)
    && (a.inflight <= 0 && s.aim.NoOrder? ==> -1.0 < a.target - curr < 1.0)
  }

  /** The exact condition: a late snapshot keeps the invariant if and only if it is harmless. */
  lemma LateSnapshotExact(s: State, symbol: string, d: OrderData, id: int)
    requires Inv(s, symbol) && Late(s, symbol, d)
    ensures Inv(Process(s, symbol, Snapshot(d), id), symbol) <==> Harmless(s, d)
  {
    hide Total;
    LateSnapshot(s, symbol, d);
  }

  /** When all is still in order after a late snapshot, be it by luck: an idle engine whose target was not met has
      nothing to lose. */
  predicate Bearable(s: State, d: OrderData)
  {
    var a := s.a;
    var curr := if d.action == Buy then a.curr + (d.traded - a.filled) else a.curr - (d.traded - a.filled);
    && TradedBefore(a, d.orderId) == a.filled
    && (a.inflight > 0 ==> !Closing(d))
    && (a.inflight <= 0 && s.aim.NoOrder? ==> -1.0 < a.target - curr < 1.0)
    && (a.inflight <= 0 && Met(s) && s.aim.Order? && s.aim.id != d.orderId ==> -1.0 < d.traded - a.filled < 1.0)
  }

  /** The exact condition for all to be in order after a late snapshot. */
  lemma LateSnapshotInOrder(s: State, symbol: string, d: OrderData, id: int)
    requires Inv(s, symbol) && Late(s, symbol, d)
    ensures InOrder(Process(s, symbol, Snapshot(d), id), symbol) <==> Bearable(s, d)
  {
    hide Total;
    LateSnapshot(s, symbol, d);
    if s.a.inflight > 0 && Closing(d) { assert Live(Process(s, symbol, Snapshot(d), id), s.a.inflight); }
  }

  /** The snapshot that a step is about to process, if its order has already finished. */
  predicate LateStep(s: State, step: Step)
  {
    step.Act? && s.a.q != [] && s.a.q[0].Snapshot? && s.a.q[0].data.orderId in s.closed
  }

  predicate StepHarmless(s: State, step: Step) { LateStep(s, step) ==> Harmless(s, s.a.q[0].data) }

  lemma AdvanceExact(t: Traced, symbol: string, step: Step, arrivals: seq<OrderData>)
    requires Enabled(t.s.a, step) && Inv(t.s, symbol) && QueueInv(t, arrivals) && (step.Act? ==> step.id !in t.s.a.reqs)
    requires Faithful(arrivals, t.s.a.reqs, symbol)
    ensures Inv(Advance(t, symbol, step).s, symbol) <==> StepHarmless(t.s, step)
  {
    hide Inv, QueueInv, Process, Harmless;
    if step.Arrive? {
      QueueIrrelevant(t.s, symbol, t.s.a.q + [step.e]);
    } else {
      var e, s := t.s.a.q[0], t.s.(a := t.s.a.(q := t.s.a.q[1..]));
      QueueIrrelevant(t.s, symbol, t.s.a.q[1..]);
      match e {
        case Target(pos, retry) => TargetKeepsInv(s, symbol, pos, retry, step.id);
        case Snapshot(d) =>
          NextArrived(t, arrivals, d);
          if d.orderId in s.closed {
            ClosedIsOwn(s, symbol, d.orderId);
            LateSnapshotExact(s, symbol, d, step.id);
            HarmlessQueue(t.s, d, t.s.a.q[1..]);
          } else {
            SnapshotKeepsInv(s, symbol, d, step.id);
          }
        case Tick => PassKeepsInv(s, symbol, e, step.id);
        case Timer => PassKeepsInv(s, symbol, e, step.id);
      }
    }
  }

  lemma HarmlessQueue(s: State, d: OrderData, q: seq<AlgoEvent>)
    ensures Harmless(s.(a := s.a.(q := q)), d) <==> Harmless(s, d)
  {
  }

  lemma ClosedIsOwn(s: State, symbol: string, id: int)
    requires Inv(s, symbol) && id in s.closed
    ensures id in s.a.reqs
  {
  }

  lemma NextArrived(t: Traced, arrivals: seq<OrderData>, d: OrderData)
    requires QueueInv(t, arrivals) && t.s.a.q != [] && t.s.a.q[0] == Snapshot(d)
    ensures d in arrivals
  {
    assert arrivals[|t.processed|] == d;
  }

  /** The invariant holds after every step of a run. */
  ghost predicate KeptAllAlong(symbol: string, steps: seq<Step>)
    requires Trace(symbol, steps).Some?
  {
    steps != [] ==> KeptAllAlong(symbol, steps[..|steps| - 1]) && Inv(Trace(symbol, steps).value.s, symbol)
  }

  /** No step of a run processes a late snapshot that does harm. */
  ghost predicate NoHarm(symbol: string, steps: seq<Step>)
    requires Trace(symbol, steps).Some?
  {
    steps != [] ==>
      && NoHarm(symbol, steps[..|steps| - 1])
      && StepHarmless(Trace(symbol, steps[..|steps| - 1]).value.s, steps[|steps| - 1])
  }

  /** For any broker: a run keeps the invariant all along if and only if every late snapshot in it is harmless
      when it is processed. */
  lemma {:induction false} RunExact(symbol: string, steps: seq<Step>)
    requires Trace(symbol, steps).Some? && Fresh(symbol, steps)
    requires Faithful(Arrivals(steps), Trace(symbol, steps).value.s.a.reqs, symbol)
    ensures KeptAllAlong(symbol, steps) <==> NoHarm(symbol, steps)
    ensures KeptAllAlong(symbol, steps) ==> Inv(Trace(symbol, steps).value.s, symbol)
    ensures QueueInv(Trace(symbol, steps).value, Arrivals(steps))
  {
    if steps != [] {
      hide Inv, Advance, QueueInv, StepHarmless;
      var init, step := steps[..|steps| - 1], steps[|steps| - 1];
      var t := Trace(symbol, init).value;
      FreshBefore(symbol, steps);
      AdvanceReqs(t, symbol, step);
      assert Arrivals(init) <= Arrivals(steps);
      RunExact(symbol, init);
      AdvanceQueue(t, symbol, step, Arrivals(init));
      if KeptAllAlong(symbol, init) { AdvanceExact(t, symbol, step, Arrivals(init)); }
    }
  }

  lemma FreshBefore(symbol: string, steps: seq<Step>)
    requires Fresh(symbol, steps) && steps != [] && Trace(symbol, steps).Some?
    ensures Fresh(symbol, steps[..|steps| - 1])
    ensures steps[|steps| - 1].Act? ==> steps[|steps| - 1].id !in Trace(symbol, steps[..|steps| - 1]).value.s.a.reqs
  {
    var init := steps[..|steps| - 1];
    forall n | 0 <= n < |init| && init[n].Act? && Trace(symbol, init[..n]).Some?
      ensures init[n].id !in Trace(symbol, init[..n]).value.s.a.reqs
    {
      assert init[..n] == steps[..n] && steps[n].Act?;
    }
  }

  // ---- a run in which the broker is not silent

  /** A run that ends in t, with the ids in use only once. */
  ghost predicate Reaches(symbol: string, steps: seq<Step>, t: Traced)
  {
    Trace(symbol, steps) == Some(t) && Fresh(symbol, steps)
  }

  lemma Onward(symbol: string, steps: seq<Step>, t: Traced, step: Step)
    requires Reaches(symbol, steps, t) && Enabled(t.s.a, step) && (step.Act? ==> step.id !in t.s.a.reqs)
    ensures Reaches(symbol, steps + [step], Advance(t, symbol, step))
    ensures Arrivals(steps + [step]) == Arrivals(steps) + ArrivalIn(step)
  {
    hide Advance, Enabled;
    var now := steps + [step];
    assert now[..|now| - 1] == steps;
    forall n | 0 <= n < |now| && now[n].Act? && Trace(symbol, now[..n]).Some?
      ensures now[n].id !in Trace(symbol, now[..n]).value.s.a.reqs
    {
      assert now[..n] == steps[..n];
      if n == |steps| { assert steps[..n] == steps; }
    }
  }

  /** The order the engine gets for a target of ten, cancelled with four traded: first the broker's answer to the
      cancellation, error 202, and later the status, with the error that the gateway has kept. */
  function FirstOrder(symbol: string, status: OrderStatus): OrderData
  {
    OrderData(1, symbol, "", "algo_engine", Buy, 10.0, 4.0, 1.0, 0.0, status, 202)
  }

  lemma StartReached(symbol: string)
    ensures Reaches(symbol, [], Traced(State(START, {}, NoOrder), [])) && Arrivals([]) == []
  {
  }

  /** The engine orders ten, and a new target of five makes it cancel. */
  lemma OneCancelled(symbol: string) returns (steps: seq<Step>, t: Traced)
    ensures Reaches(symbol, steps, t) && Arrivals(steps) == []
    ensures t == Traced(State(Algo(10.0, 0.0, 1, true, 0.0, map[1 := Request(symbol, 10.0)], map[], [Target(5.0, true)],
                                   [Sent(1), CancelSent(1)], false), {}, Order(1)), [])
  {
    hide Reaches, Arrivals, Request;
    StartReached(symbol);
    steps, t := [], Traced(State(START, {}, NoOrder), []);
    steps, t := Then(symbol, steps, t, Arrive(Target(10.0, false)));
    steps, t := Then(symbol, steps, t, Act(1));
    assert t.s.a.latest == map[] && t.s.a.reqs == map[1 := Request(symbol, 10.0)] && t.s.a.q == [];
    steps, t := Then(symbol, steps, t, Arrive(Target(5.0, false)));
    steps, t := Then(symbol, steps, t, Act(2));
  }

  /** Error 202 ends order 1, and the retried target sends order 2 for the missing one. */
  lemma TwoOrders(symbol: string) returns (steps: seq<Step>, t: Traced)
    ensures Reaches(symbol, steps, t) && Arrivals(steps) == [FirstOrder(symbol, Submitted)]
    ensures t.s.a.q == [] && !t.s.a.halted && !t.s.a.cancelled && t.s.a.inflight == 2 && t.s.closed == {1}
    ensures t.s.a.curr == 4.0 && t.s.a.filled == 0.0 && t.s.a.latest == map[1 := FirstOrder(symbol, Submitted)]
    ensures t.s.a.reqs == map[1 := Request(symbol, 10.0), 2 := Request(symbol, 1.0)]
  {
    hide Reaches, Arrivals, Request;
    steps, t := OneCancelled(symbol);
    var d := FirstOrder(symbol, Submitted);
    steps, t := Then(symbol, steps, t, Arrive(Snapshot(d)));
    steps, t := Then(symbol, steps, t, Act(2));
    assert t.s.a.q == [Snapshot(d), Target(5.0, true)];
    steps, t := Then(symbol, steps, t, Act(2));
    assert t.s.a.q == [Target(5.0, true)] && t.s.a.latest == map[1 := d] && t.s.closed == {1} && t.s.a.inflight == -1;
    steps, t := Then(symbol, steps, t, Act(2));
    assert t.s.a.latest == map[1 := d];
  }

  lemma Then(symbol: string, steps: seq<Step>, t: Traced, step: Step) returns (now: seq<Step>, u: Traced)
    requires Reaches(symbol, steps, t) && Enabled(t.s.a, step) && (step.Act? ==> step.id !in t.s.a.reqs)
    ensures now == steps + [step] && u == Advance(t, symbol, step) && Reaches(symbol, now, u)
    ensures Arrivals(now) == Arrivals(steps) + ArrivalIn(step)
  {
    Onward(symbol, steps, t, step);
    now, u := steps + [step], Advance(t, symbol, step);
  }

  /** The status of order 1 that follows counts its four a second time and frees the engine, and the next target
      sends a third order: two orders are live and the position is wrong. Only the silence of the broker fails. */
  lemma LateRun(symbol: string) returns (steps: seq<Step>)
    ensures Trace(symbol, steps).Some? && Fresh(symbol, steps) && !Quiet(Arrivals(steps))
    ensures Faithful(Arrivals(steps), Trace(symbol, steps).value.s.a.reqs, symbol)
    ensures var s := Trace(symbol, steps).value.s;
            Live(s, 2) && Live(s, 3) && s.a.inflight == 3 && s.a.curr == 8.0 && Total(s.a.latest, symbol).pos == 4.0
  {
    var t;
    steps, t := ThreeOrders(symbol);
    hide Trace, Arrivals, Fresh, Total, Contribution;
    var d := FirstOrder(symbol, Cancelled);
    assert Arrivals(steps)[0].orderId == Arrivals(steps)[1].orderId && Closing(Arrivals(steps)[0]);
    FirstOrderTotal(symbol, d);
  }

  lemma FirstOrderTotal(symbol: string, d: OrderData)
    requires d.symbol == symbol && d.orderId == 1 && d.action == Buy
    ensures Total(map[1 := d], symbol).pos == d.traded
  {
    var orders := map[1 := d];
    TotalFrom(orders, symbol, 1);
    assert orders - {1} == map[];
  }

  lemma ThreeOrders(symbol: string) returns (steps: seq<Step>, t: Traced)
    ensures Reaches(symbol, steps, t)
    ensures Arrivals(steps) == [FirstOrder(symbol, Submitted), FirstOrder(symbol, Cancelled)]
    ensures t.s.a.curr == 8.0 && t.s.a.inflight == 3 && t.s.a.latest == map[1 := FirstOrder(symbol, Cancelled)]
    ensures t.s.a.reqs == map[1 := Request(symbol, 10.0), 2 := Request(symbol, 1.0), 3 := Request(symbol, 12.0)]
    ensures t.s.closed == {1}
  {
    hide Reaches, Arrivals, Request;
    steps, t := TwoOrders(symbol);
    var d := FirstOrder(symbol, Cancelled);
    steps, t := Then(symbol, steps, t, Arrive(Snapshot(d)));
    steps, t := Then(symbol, steps, t, Act(3));
    assert t.s.a.q == [] && t.s.a.latest == map[1 := d] && t.s.closed == {1} && t.s.a.inflight == -1 && t.s.a.curr == 8.0;
    steps, t := Then(symbol, steps, t, Arrive(Target(20.0, false)));
    steps, t := Then(symbol, steps, t, Act(3));
    assert t.s.a.latest == map[1 := d];
  }

  // ---- a run in which an order fills

  function FilledOrder(symbol: string): OrderData
  {
    OrderData(1, symbol, "", "algo_engine", Buy, 10.0, 10.0, 1.0, 0.0, Filled, 0)
  }

  lemma ReachesTrace(symbol: string, steps: seq<Step>, t: Traced)
    requires Reaches(symbol, steps, t)
    ensures Trace(symbol, steps) == Some(t) && Fresh(symbol, steps) && At(symbol, steps, |steps|) == t
  {
    assert steps[..|steps|] == steps;
  }

  /** What a run has been does not depend on how it goes on. */
  lemma AtBefore(symbol: string, a: seq<Step>, b: seq<Step>, k: nat)
    requires Trace(symbol, a).Some? && Trace(symbol, b).Some? && a <= b && k <= |a|
    ensures At(symbol, a, k) == At(symbol, b, k)
  {
    assert a[..k] == b[..k];
  }

  /** The engine orders ten, and the order fills. */
  lemma OneFilled(symbol: string) returns (steps: seq<Step>, t: Traced)
    ensures Reaches(symbol, steps, t) && Arrivals(steps) == [FilledOrder(symbol)] && |steps| == 4 && steps[3] == Act(2)
    ensures Trace(symbol, steps).Some? && At(symbol, steps, 3).s.a.q == [Snapshot(FilledOrder(symbol))]
    ensures 1 in At(symbol, steps, 3).s.a.reqs
    ensures t.s.a.curr == 10.0 && t.s.a.inflight == -1 && !t.s.a.cancelled && !t.s.a.halted && t.s.a.q == []
    ensures t.s.a.reqs == map[1 := Request(symbol, 10.0)] && t.s.a.log == [Sent(1)]
  {
    hide Reaches, Arrivals, Request, Trace, At;
    StartReached(symbol);
    steps, t := [], Traced(State(START, {}, NoOrder), []);
    steps, t := Then(symbol, steps, t, Arrive(Target(10.0, false)));
    steps, t := Then(symbol, steps, t, Act(1));
    assert t.s.a.latest == map[] && t.s.a.reqs == map[1 := Request(symbol, 10.0)] && t.s.a.q == [];
    steps, t := Then(symbol, steps, t, Arrive(Snapshot(FilledOrder(symbol))));
    var before := steps;
    ReachesTrace(symbol, steps, t);
    assert t.s.a.q == [Snapshot(FilledOrder(symbol))];
    steps, t := Then(symbol, steps, t, Act(2));
    ReachesTrace(symbol, steps, t);
    AtBefore(symbol, before, steps, 3);
  }

  /** The next target of twenty is ordered at once: ten more, and nothing is cancelled. */
  lemma FilledRun(symbol: string) returns (steps: seq<Step>)
    ensures Trace(symbol, steps).Some? && GoodRun(symbol, steps) && |steps| == 6
    ensures NextTarget(symbol, steps, 3, FilledOrder(symbol), 5, 20.0, false)
    ensures var a := Trace(symbol, steps).value.s.a;
            a.log == [Sent(1), Sent(2)] && a.curr == 10.0 && a.inflight == 2 && 2 in a.reqs
            && a.reqs[2].action == Buy && a.reqs[2].quantity == 10.0
  {
    hide Arrivals, Reaches, Trace, At, Fresh;
    var t;
    steps, t := OneFilled(symbol);
    var first := steps;
    steps, t := Then(symbol, steps, t, Arrive(Target(20.0, false)));
    var before := steps;
    ReachesTrace(symbol, steps, t);
    assert t.s.a.q == [Target(20.0, false)];
    steps, t := Then(symbol, steps, t, Act(2));
    ReachesTrace(symbol, steps, t);
    AtBefore(symbol, before, steps, 5);
    AtBefore(symbol, first, steps, 3);
    assert Arrivals(steps) == [FilledOrder(symbol)];
  }
}
