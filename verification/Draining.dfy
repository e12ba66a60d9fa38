/** What the snapshots under way at some moment decide: whether the positions will match the gateway's map however
    these snapshots are emitted. */
module Draining {
  import opened Basics
  import opened Orders
  import opened Engine
  import opened Gateway
  import opened PortfolioBook
  import opened Pipeline
  import opened Agreement

  /** Steps that bring snapshots on their way, without new sends or answers. */
  predicate Drains(step: Step) { step.Emit? || step.EnginePop? || step.Deliver? || step.Take? || step.Timeout? }

  predicate AllDrain(steps: seq<Step>) { forall i :: 0 <= i < |steps| ==> Drains(steps[i]) }

  ghost predicate DrainsTo(cbs: Callbacks, steps: seq<Step>, more: seq<Step>, n: string)
  {
    AllDrain(more) && Run(cbs, steps + more).Some? && Drained(Run(cbs, steps + more).value, n)
  }

  /** However a run is drained, the positions match in the end. */
  ghost predicate AlwaysMatches(cbs: Callbacks, steps: seq<Step>, n: string)
  {
    forall more :: DrainsTo(cbs, steps, more, n) ==> Matches(Run(cbs, steps + more).value)
  }

  /** Snapshots of one order under way contribute alike. */
  ghost predicate Unanimous(s: State)
  {
    forall d, e :: d in s.underway && e in s.underway && d.orderId == e.orderId ==> Contribution(d) == Contribution(e)
  }

  /** The positions that emission in turn would leave are those of the map. */
  ghost predicate MatchesInTurn(s: State)
  {
    forall algo, symbol :: Total(Reported(s.orders, All(s), algo), symbol) == Total(OrdersFrom(s.orders, algo), symbol)
  }

  lemma RunOn(cbs: Callbacks, steps: seq<Step>, step: Step)
    requires Run(cbs, steps).Some? && Enabled(Run(cbs, steps).value, step)
    ensures Run(cbs, steps + [step]) == Some(Do(cbs, Run(cbs, steps).value, step))
  {
    assert (steps + [step])[..|steps + [step]| - 1] == steps;
  }

  lemma RunBack(cbs: Callbacks, steps: seq<Step>, more: seq<Step>)
    requires Run(cbs, steps + more).Some? && more != []
    ensures var init, step := more[..|more| - 1], more[|more| - 1];
            Run(cbs, steps + init).Some? && Enabled(Run(cbs, steps + init).value, step)
            && Run(cbs, steps + more).value == Do(cbs, Run(cbs, steps + init).value, step)
  {
    var all := steps + more;
    assert all[..|all| - 1] == steps + more[..|more| - 1] && all[|all| - 1] == more[|more| - 1];
  }

  // ---- whatever is drained, each order ends with one of its candidates

  /** Where draining can have got to from s: an order's last report is still the old one, with all of its snapshots
      still under way, or is one of these snapshots. */
  ghost predicate OnTheWay(s: State, t: State)
  {
    && t.orders == s.orders && (forall d :: d in t.underway ==> d in s.underway)
    && forall id :: Undecided(s, t, id) || Decided(s, t, id)
  }

  ghost predicate Undecided(s: State, t: State, id: int)
  {
    LastOf(t.history, id) == LastOf(s.history, id) && forall d :: d in s.underway && d.orderId == id ==> d in t.underway
  }

  ghost predicate Decided(s: State, t: State, id: int)
  {
    LastOf(t.history, id).Some? && LastOf(t.history, id).value in s.underway && LastOf(t.history, id).value.orderId == id
  }

  lemma EmitOnTheWay(s: State, t: State, i: nat, u: State)
    requires OnTheWay(s, t) && i < |t.underway|
    requires u.orders == t.orders && u.history == t.history + [t.underway[i]] && u.underway == Without(t.underway, i)
    ensures OnTheWay(s, u)
  {
    hide LastOf, Without;
    var x := t.underway[i];
    WithoutElements(t.underway, i);
    assert x in t.underway;
    forall id
      ensures Undecided(s, u, id) || Decided(s, u, id)
    {
      assert Undecided(s, t, id) || Decided(s, t, id);
      LastOfConcat(t.history, [x], id);
      LastOfOne(x, id);
    }
  }

  lemma WithoutElements(u: seq<OrderData>, i: nat)
    requires i < |u|
    ensures forall d :: d in u <==> d in Without(u, i) || d == u[i]
  {
    assert u == u[..i] + [u[i]] + u[i + 1..];
  }

  lemma SameOnTheWay(s: State, t: State, u: State)
    requires OnTheWay(s, t) && u.orders == t.orders && u.history == t.history && u.underway == t.underway
    ensures OnTheWay(s, u)
  {
    hide LastOf;
    forall id
      ensures Undecided(s, u, id) || Decided(s, u, id)
    {
      assert Undecided(s, t, id) || Decided(s, t, id);
    }
  }

  lemma DrainStepKeeps(cbs: Callbacks, t: State, step: Step)
    requires Enabled(t, step) && Drains(step) && !step.Emit?
    ensures var u := Do(cbs, t, step); u.orders == t.orders && u.history == t.history && u.underway == t.underway
  {
  }

  lemma {:induction false} DrainOnTheWay(cbs: Callbacks, steps: seq<Step>, more: seq<Step>)
    requires Run(cbs, steps).Some? && AllDrain(more) && Run(cbs, steps + more).Some?
    ensures OnTheWay(Run(cbs, steps).value, Run(cbs, steps + more).value)
    decreases |more|
  {
    var s := Run(cbs, steps).value;
    if more == [] {
      assert steps + more == steps;
      assert forall id :: Undecided(s, s, id);
    } else {
      hide OnTheWay, Do, Enabled, Run;
      RunBack(cbs, steps, more);
      var init, step := more[..|more| - 1], more[|more| - 1];
      DrainOnTheWay(cbs, steps, init);
      var t := Run(cbs, steps + init).value;
      if step.Emit? {
        EmitEnabled(t, step.i);
        EmitEffect(cbs, t, step.i);
        EmitOnTheWay(s, t, step.i, Do(cbs, t, step));
      } else {
        DrainStepKeeps(cbs, t, step);
        SameOnTheWay(s, t, Do(cbs, t, step));
      }
    }
  }

  lemma EmitEnabled(t: State, i: nat)
    ensures Enabled(t, Emit(i)) <==> i < |t.underway|
  {
  }

  lemma {:induction false} SameContributions(a: map<int, OrderData>, b: map<int, OrderData>, symbol: string)
    requires a.Keys == b.Keys
    requires forall id :: id in a ==> a[id].symbol == b[id].symbol && Contribution(a[id]) == Contribution(b[id])
    ensures Total(a, symbol) == Total(b, symbol)
    decreases |a|
  {
    if id :| id in a.Keys {
      hide Total, Contribution;
      TotalFrom(a, symbol, id);
      TotalFrom(b, symbol, id);
      assert (a - {id}).Keys == a.Keys - {id} && (b - {id}).Keys == b.Keys - {id};
      SameContributions(a - {id}, b - {id}, symbol);
    } else {
      assert (forall id :: id in a ==> id in a.Keys) && forall id :: id in b ==> id in b.Keys;
    }
  }

  lemma OneCandidate(s: State, t: State, id: int)
    requires OnTheWay(s, t) && t.underway == [] && Unanimous(s) && id in s.orders && Accounts(s.orders, All(s))
    ensures var x, y := LastOf(t.history, id), LastOf(All(s), id);
            x.Some? && y.Some? && x.value.symbol == y.value.symbol && Contribution(x.value) == Contribution(y.value)
  {
    hide LastOf, Contribution;
    var x, y := LastOf(t.history, id), LastOf(All(s), id);
    LastOfIs(All(s), id);
    LastOfConcat(s.history, s.underway, id);
    LastOfIs(s.underway, id);
    assert Undecided(s, t, id) || Decided(s, t, id);
    if LastOf(s.underway, id).Some? {
      assert LastOf(s.underway, id).value in s.underway;
      assert Decided(s, t, id);
      assert x.value in All(s) && y.value in All(s);
    }
  }

  lemma DrainedTotals(s: State, t: State, algo: string, symbol: string)
    requires OnTheWay(s, t) && t.underway == [] && Unanimous(s) && Accounts(s.orders, All(s))
    ensures Total(Reported(t.orders, t.history, algo), symbol) == Total(Reported(s.orders, All(s), algo), symbol)
  {
    hide LastOf, Contribution, Accounts, Unanimous, Total;
    var a, b := Reported(t.orders, t.history, algo), Reported(s.orders, All(s), algo);
    forall id | id in s.orders && s.orders[id].source == algo
      ensures id in a && id in b && a[id].symbol == b[id].symbol && Contribution(a[id]) == Contribution(b[id])
    {
      OneCandidate(s, t, id);
    }
    SameContributions(a, b, symbol);
  }

  /** Unanimous snapshots that would match in turn match in the end. */
  lemma UnanimousMatches(cbs: Callbacks, steps: seq<Step>, more: seq<Step>, n: string)
    requires Sole(cbs, n, PORTFOLIO) && Run(cbs, steps).Some? && DrainsTo(cbs, steps, more, n)
    requires Unanimous(Run(cbs, steps).value) && MatchesInTurn(Run(cbs, steps).value)
    ensures Matches(Run(cbs, steps + more).value)
  {
    hide Run, Total, PositionOf, Reported, OrdersFrom, Unanimous, OnTheWay;
    var s, t := Run(cbs, steps).value, Run(cbs, steps + more).value;
    RunAccounts(cbs, steps);
    DrainOnTheWay(cbs, steps, more);
    PositionsAsEmitted(cbs, steps + more, n);
    SameOrders(s, t);
    forall algo, symbol
      ensures PositionOf(t.book, algo, symbol) == Total(OrdersFrom(t.orders, algo), symbol)
    {
      DrainedTotals(s, t, algo, symbol);
    }
  }

  lemma SameOrders(s: State, t: State)
    requires OnTheWay(s, t)
    ensures s.orders == t.orders
  {
  }

  // ---- every snapshot under way can be the last of its order

  /** Emits all snapshots under way, number j last and the others in turn. */
  lemma {:induction false} EmitWithLast(cbs: Callbacks, steps: seq<Step>, j: nat) returns (more: seq<Step>)
    requires Run(cbs, steps).Some? && j < |Run(cbs, steps).value.underway|
    ensures AllDrain(more) && Run(cbs, steps + more).Some?
    ensures var s, t := Run(cbs, steps).value, Run(cbs, steps + more).value;
            t.orders == s.orders && t.underway == [] && t.history == s.history + Without(s.underway, j) + [s.underway[j]]
    decreases |Run(cbs, steps).value.underway|
  {
    hide Do, Run, Without;
    var s := Run(cbs, steps).value;
    var u := s.underway;
    var i := if j == 0 && |u| > 1 then 1 else 0;
    EmitOne(cbs, steps, i);
    if |u| == 1 {
      more := [Emit(0)];
      OnlyOne(u);
      assert s.history + [] + [u[0]] == s.history + [u[0]];
    } else {
      var k := if j == 0 then 0 else j - 1;
      EmittedOrder(u, i, j);
      var rest := EmitWithLast(cbs, steps + [Emit(i)], k);
      more := [Emit(i)] + rest;
      assert steps + [Emit(i)] + rest == steps + more;
      assert s.history + [u[i]] + Without(Without(u, i), k) == s.history + ([u[i]] + Without(Without(u, i), k));
    }
  }

  lemma EmitOne(cbs: Callbacks, steps: seq<Step>, i: nat)
    requires Run(cbs, steps).Some? && i < |Run(cbs, steps).value.underway|
    ensures Run(cbs, steps + [Emit(i)]).Some?
    ensures var s, t := Run(cbs, steps).value, Run(cbs, steps + [Emit(i)]).value;
            t.orders == s.orders && t.history == s.history + [s.underway[i]] && t.underway == Without(s.underway, i)
            && |Without(s.underway, i)| == |s.underway| - 1
  {
    hide Run;
    RunOn(cbs, steps, Emit(i));
  }

  lemma OnlyOne(u: seq<OrderData>)
    requires |u| == 1
    ensures Without(u, 0) == []
  {
  }

  lemma EmittedOrder(u: seq<OrderData>, i: nat, j: nat)
    requires |u| > 1 && j < |u| && i == if j == 0 then 1 else 0
    ensures var k := if j == 0 then 0 else j - 1;
            k < |Without(u, i)| && Without(u, i)[k] == u[j] && [u[i]] + Without(Without(u, i), k) == Without(u, j)
  {
  }

  /** Brings everything that has been emitted to the portfolio. */
  lemma {:induction false} DrainEngine(cbs: Callbacks, steps: seq<Step>, n: string) returns (more: seq<Step>)
    requires Run(cbs, steps).Some? && Run(cbs, steps).value.underway == []
    ensures DrainsTo(cbs, steps, more, n)
    ensures var s, t := Run(cbs, steps).value, Run(cbs, steps + more).value; t.orders == s.orders && t.history == s.history
    decreases |Run(cbs, steps).value.engineQ|, |Run(cbs, steps).value.owed|, |At(Run(cbs, steps).value.queues, PORTFOLIO)|
  {
    hide Run, AllDrain, Drained;
    var s := Run(cbs, steps).value;
    if s.inHand.None? && s.engineQ == [] && At(s.queues, PORTFOLIO) == [] {
      more := [];
      assert steps + [] == steps;
      NothingDrained(s, n);
      AllDrainOn(Timeout, []);
    } else {
      var step := DrainOne(cbs, steps);
      var rest := DrainEngine(cbs, steps + [step], n);
      more := [step] + rest;
      assert steps + [step] + rest == steps + more;
      AllDrainOn(step, rest);
    }
  }

  lemma AllDrainOn(step: Step, rest: seq<Step>)
    requires Drains(step)
    ensures AllDrain([]) && (AllDrain(rest) ==> AllDrain([step] + rest))
  {
  }

  lemma DrainOne(cbs: Callbacks, steps: seq<Step>) returns (step: Step)
    requires Run(cbs, steps).Some?
    requires var s := Run(cbs, steps).value; s.inHand.Some? || s.engineQ != [] || At(s.queues, PORTFOLIO) != []
    ensures Drains(step) && Run(cbs, steps + [step]).Some?
    ensures var s, t := Run(cbs, steps).value, Run(cbs, steps + [step]).value;
            t.orders == s.orders && t.history == s.history && t.underway == s.underway && Shrinks(s, t)
  {
    hide Run, Do;
    HandOk(cbs, steps);
    var s := Run(cbs, steps).value;
    if s.inHand.Some? {
      var name :| name in s.owed;
      step := Deliver(name);
    } else if s.engineQ != [] {
      step := EnginePop;
    } else {
      step := Take(PORTFOLIO);
    }
    RunOn(cbs, steps, step);
    DrainStepKeeps(cbs, s, step);
    DrainStepShrinks(cbs, s, step);
  }

  predicate Shrinks(s: State, t: State)
  {
    |t.engineQ| < |s.engineQ|
    || (|t.engineQ| == |s.engineQ| && (|t.owed| < |s.owed|
        || (t.owed == s.owed && |At(t.queues, PORTFOLIO)| < |At(s.queues, PORTFOLIO)|)))
  }

  lemma NothingDrained(s: State, n: string)
    requires s.underway == [] && s.inHand.None? && s.engineQ == [] && At(s.queues, PORTFOLIO) == []
    ensures Drained(s, n)
  {
    assert At(s.queues, PORTFOLIO) + InHandFor(s, n) + s.engineQ == [];
  }

  lemma DrainStepShrinks(cbs: Callbacks, s: State, step: Step)
    requires Enabled(s, step) && (step.Deliver? || step.EnginePop? || (step == Take(PORTFOLIO) && s.inHand.None?))
    ensures Shrinks(s, Do(cbs, s, step))
  {
    hide Dispatch;
    if step.Deliver? { assert |s.owed - {step.name}| == |s.owed| - 1; }
  }

  /** The engine has an event in hand exactly while some callback is owed it. */
  lemma {:induction false} HandOk(cbs: Callbacks, steps: seq<Step>)
    requires Run(cbs, steps).Some?
    ensures Run(cbs, steps).value.inHand.Some? <==> Run(cbs, steps).value.owed != {}
  {
    if steps != [] {
      hide Do, Enabled;
      HandOk(cbs, steps[..|steps| - 1]);
      HandStep(cbs, Run(cbs, steps[..|steps| - 1]).value, steps[|steps| - 1]);
    }
  }

  lemma HandStep(cbs: Callbacks, s: State, step: Step)
    requires Enabled(s, step) && (s.inHand.Some? <==> s.owed != {})
    ensures Do(cbs, s, step).inHand.Some? <==> Do(cbs, s, step).owed != {}
  {
    hide OnSend, OnOpen, OnStatus, OnError, Dispatch, Without;
  }

  // ---- the exact condition

  lemma DrainFurther(cbs: Callbacks, steps: seq<Step>, first: seq<Step>, n: string) returns (more: seq<Step>)
    requires AllDrain(first) && Run(cbs, steps + first).Some? && Run(cbs, steps + first).value.underway == []
    ensures DrainsTo(cbs, steps, more, n)
    ensures var s, t := Run(cbs, steps + first).value, Run(cbs, steps + more).value;
            t.orders == s.orders && t.history == s.history
  {
    hide Run, Drained;
    var rest := DrainEngine(cbs, steps + first, n);
    more := first + rest;
    assert steps + first + rest == steps + more;
  }

  lemma LastOfMoved(h: seq<OrderData>, u: seq<OrderData>, j: nat, id: int)
    requires j < |u|
    ensures LastOf(h + Without(u, j) + [u[j]], id) == if u[j].orderId == id then Some(u[j]) else LastOf(h + u, id)
  {
    assert u == u[..j] + [u[j]] + u[j + 1..];
    assert h + u == h + u[..j] + [u[j]] + u[j + 1..] && h + Without(u, j) == h + u[..j] + u[j + 1..];
    hide LastOf, Without;
    LastOfConcat(h + Without(u, j), [u[j]], id);
    LastOfConcat(h + u[..j], u[j + 1..], id);
    LastOfConcat(h + u[..j] + [u[j]], u[j + 1..], id);
    LastOfConcat(h + u[..j], [u[j]], id);
    LastOfOne(u[j], id);
  }

  /** Any snapshot under way can have the last word on its order, with the other orders as in turn. */
  lemma CanBeLast(cbs: Callbacks, steps: seq<Step>, j: nat, n: string) returns (more: seq<Step>)
    requires Run(cbs, steps).Some? && j < |Run(cbs, steps).value.underway|
    ensures DrainsTo(cbs, steps, more, n)
    ensures var s, t := Run(cbs, steps).value, Run(cbs, steps + more).value;
            t.orders == s.orders && t.history == s.history + Without(s.underway, j) + [s.underway[j]]
  {
    hide Run, Drained;
    var first := EmitWithLast(cbs, steps, j);
    more := DrainFurther(cbs, steps, first, n);
  }

  lemma InTurnPossible(cbs: Callbacks, steps: seq<Step>, n: string) returns (more: seq<Step>)
    requires Run(cbs, steps).Some?
    ensures DrainsTo(cbs, steps, more, n)
    ensures var s, t := Run(cbs, steps).value, Run(cbs, steps + more).value; t.orders == s.orders && t.history == All(s)
  {
    hide Run, Drained;
    var s := Run(cbs, steps).value;
    if s.underway == [] {
      assert steps + [] == steps;
      more := DrainFurther(cbs, steps, [], n);
      assert All(s) == s.history;
    } else {
      more := CanBeLast(cbs, steps, |s.underway| - 1, n);
      assert s.history + Without(s.underway, |s.underway| - 1) + [s.underway[|s.underway| - 1]] == All(s);
    }
  }

  lemma MatchMeansInTurn(cbs: Callbacks, steps: seq<Step>, n: string)
    requires Sole(cbs, n, PORTFOLIO) && Run(cbs, steps).Some? && AlwaysMatches(cbs, steps, n)
    ensures MatchesInTurn(Run(cbs, steps).value)
  {
    hide Run, Total, PositionOf, Reported, OrdersFrom;
    var more := InTurnPossible(cbs, steps, n);
    PositionsAsEmitted(cbs, steps + more, n);
    assert Matches(Run(cbs, steps + more).value);
    var s, t := Run(cbs, steps).value, Run(cbs, steps + more).value;
    forall algo, symbol
      ensures Total(Reported(s.orders, All(s), algo), symbol) == Total(OrdersFrom(s.orders, algo), symbol)
    {
      assert PositionOf(t.book, algo, symbol) == Total(Reported(t.orders, t.history, algo), symbol);
    }
  }

  lemma ReportedLast(s: State, j: nat)
    requires j < |s.underway| && Accounts(s.orders, All(s))
    ensures var d := s.underway[j];
            d.orderId in s.orders && d.source == s.orders[d.orderId].source && SameOrder(d, s.orders[d.orderId])
            && Reported(s.orders, s.history + Without(s.underway, j) + [d], d.source) ==
                 Reported(s.orders, All(s), d.source)[d.orderId := d]
  {
    hide LastOf, Without;
    var d := s.underway[j];
    assert d in All(s);
    forall id
      ensures LastOf(s.history + Without(s.underway, j) + [d], id) == if d.orderId == id then Some(d) else LastOf(All(s), id)
    {
      LastOfMoved(s.history, s.underway, j, id);
    }
  }

  lemma LastWordTotal(cbs: Callbacks, steps: seq<Step>, j: nat, n: string)
    requires Sole(cbs, n, PORTFOLIO) && Run(cbs, steps).Some? && AlwaysMatches(cbs, steps, n)
    requires j < |Run(cbs, steps).value.underway|
    ensures var s := Run(cbs, steps).value;
            var d := s.underway[j];
            Total(Reported(s.orders, All(s), d.source)[d.orderId := d], d.symbol) == Total(OrdersFrom(s.orders, d.source), d.symbol)
  {
    hide Run, Total, PositionOf, Reported, OrdersFrom, LastOf, Without;
    var s := Run(cbs, steps).value;
    var d := s.underway[j];
    RunAccounts(cbs, steps);
    var more := CanBeLast(cbs, steps, j, n);
    var t := Run(cbs, steps + more).value;
    PositionsAsEmitted(cbs, steps + more, n);
    assert Matches(t);
    assert PositionOf(t.book, d.source, d.symbol) == Total(Reported(t.orders, t.history, d.source), d.symbol);
    ReportedLast(s, j);
  }

  lemma MatchMeansUnanimous(cbs: Callbacks, steps: seq<Step>, n: string, i: nat, j: nat)
    requires Sole(cbs, n, PORTFOLIO) && Run(cbs, steps).Some? && AlwaysMatches(cbs, steps, n)
    requires var u := Run(cbs, steps).value.underway; i < |u| && j < |u| && u[i].orderId == u[j].orderId
    ensures var u := Run(cbs, steps).value.underway; Contribution(u[i]) == Contribution(u[j])
  {
    hide Run, Total, OrdersFrom, LastOf, Contribution, AlwaysMatches;
    var s := Run(cbs, steps).value;
    var d, e := s.underway[i], s.underway[j];
    RunAccounts(cbs, steps);
    ReportedLast(s, i);
    ReportedLast(s, j);
    LastWordTotal(cbs, steps, i, n);
    LastWordTotal(cbs, steps, j, n);
    hide Reported;
    TotalUpdate(Reported(s.orders, All(s), d.source), d.symbol, d);
    TotalUpdate(Reported(s.orders, All(s), d.source), d.symbol, e);
  }

  /** From any state of any run: the positions match the gateway's map however the run is drained, if and only if
      the snapshots of one order under way contribute alike, and emission in turn would match. */
  lemma DrainExact(cbs: Callbacks, steps: seq<Step>, n: string)
    requires Sole(cbs, n, PORTFOLIO) && Run(cbs, steps).Some?
    ensures var s := Run(cbs, steps).value; AlwaysMatches(cbs, steps, n) <==> Unanimous(s) && MatchesInTurn(s)
  {
    hide Run, Matches, MatchesInTurn, Contribution;
    var s := Run(cbs, steps).value;
    if AlwaysMatches(cbs, steps, n) {
      MatchMeansInTurn(cbs, steps, n);
      forall d, e | d in s.underway && e in s.underway && d.orderId == e.orderId
        ensures Contribution(d) == Contribution(e)
      {
        var i :| 0 <= i < |s.underway| && s.underway[i] == d;
        var j :| 0 <= j < |s.underway| && s.underway[j] == e;
        MatchMeansUnanimous(cbs, steps, n, i, j);
      }
    }
    if Unanimous(s) && MatchesInTurn(s) {
      forall more | DrainsTo(cbs, steps, more, n)
        ensures Matches(Run(cbs, steps + more).value)
      {
        UnanimousMatches(cbs, steps, more, n);
      }
    }
  }

  /** While nothing has been overtaken the condition is on the snapshots under way alone: each must contribute what
      the map's entry for its order does. */
  lemma DrainExactInTurn(cbs: Callbacks, steps: seq<Step>, n: string)
    requires Sole(cbs, n, PORTFOLIO) && Run(cbs, steps).Some? && InTurn(Run(cbs, steps).value)
    ensures var s := Run(cbs, steps).value;
            AlwaysMatches(cbs, steps, n) <==>
            forall d :: d in s.underway ==> d.orderId in s.orders && Contribution(d) == Contribution(s.orders[d.orderId])
  {
    hide Run, AlwaysMatches;
    var s := Run(cbs, steps).value;
    DrainExact(cbs, steps, n);
    RunAccounts(cbs, steps);
    InTurnMatches(s);
    UnanimousInTurn(s);
  }

  lemma InTurnMatches(s: State)
    requires InTurn(s)
    ensures MatchesInTurn(s)
  {
    hide Total, Reported, OrdersFrom, InTurn;
    forall algo, symbol
      ensures Total(Reported(s.orders, All(s), algo), symbol) == Total(OrdersFrom(s.orders, algo), symbol)
    {
      InTurnIsGateway(s, algo);
    }
  }

  lemma UnanimousInTurn(s: State)
    requires InTurn(s) && Accounts(s.orders, All(s))
    ensures Unanimous(s) <==>
            forall d :: d in s.underway ==> d.orderId in s.orders && Contribution(d) == Contribution(s.orders[d.orderId])
  {
    hide LastOf, Contribution;
    forall d | d in s.underway
      ensures d.orderId in s.orders && s.orders[d.orderId] in s.underway && s.orders[d.orderId].orderId == d.orderId
    {
      assert d in All(s);
      LastOfConcat(s.history, s.underway, d.orderId);
      LastOfIs(s.underway, d.orderId);
    }
  }

  // ---- a run in which one snapshot overtakes another

  const NAME := "portfolio_order_data_cb"

  const CBS: Callbacks := map[OrderKind := map[NAME := PORTFOLIO]]

  const REQUEST := OrderReq("A", "", "algo", Buy, 10.0, None)

  /** An order is refused on the sender's thread, for want of a connection, while its fill is being reported on the
      thread of the broker's answers; the fill is emitted first. In the end the map has ten traded and the
      portfolio none. */
  lemma OvertakenRun() returns (steps: seq<Step>)
    ensures Run(CBS, steps).Some? && Sole(CBS, NAME, PORTFOLIO) && Drained(Run(CBS, steps).value, NAME)
    ensures var s := Run(CBS, steps).value;
            1 in s.orders && s.orders[1].traded == 10.0 && s.orders[1].source == "algo" && s.orders[1].symbol == "A"
            && PositionOf(s.book, "algo", "A").pos == 0.0 && Total(OrdersFrom(s.orders, "algo"), "A").pos == 10.0
            && !Matches(s)
  {
    hide Run, Total, Contribution, PositionOf, LastOf, Drained;
    var first := Overtaking();
    assert first + [] == first;
    var more := DrainFurther(CBS, first, [], NAME);
    steps := first + more;
    var s := Run(CBS, steps).value;
    PositionsAsEmitted(CBS, steps, NAME);
    assert PositionOf(s.book, "algo", "A") == Total(Reported(s.orders, s.history, "algo"), "A");
    SingleTotal(Reported(s.orders, s.history, "algo"), 1);
    SingleTotal(OrdersFrom(s.orders, "algo"), 1);
  }

  lemma SingleTotal(orders: map<int, OrderData>, id: int)
    requires orders.Keys == {id} && orders[id].symbol == "A" && orders[id].action == Buy
    ensures Total(orders, "A").pos == orders[id].traded
  {
    TotalFrom(orders, "A", id);
    assert orders - {id} == map[];
  }

  lemma Overtaking() returns (steps: seq<Step>)
    ensures Run(CBS, steps).Some? && Run(CBS, steps).value.underway == []
    ensures var s, d := Run(CBS, steps).value, NewOrder(1, REQUEST).(errorCode := 504);
            s.orders == map[1 := d.(status := Filled, traded := 10.0, avgPrice := 5.0)]
            && LastOf(s.history, 1) == Some(d)
  {
    hide Run;
    steps := Taken();
    steps := Next(steps, Emit(1));
    steps := Next(steps, Emit(0));
  }

  /** The order is emitted, and the refusal and the fill are under way. */
  lemma Taken() returns (steps: seq<Step>)
    ensures Run(CBS, steps).Some?
    ensures var s, d := Run(CBS, steps).value, NewOrder(1, REQUEST);
            var refused := d.(errorCode := 504);
            var filled := refused.(status := Filled, traded := 10.0, avgPrice := 5.0);
            s.orders == map[1 := filled] && s.underway == [refused, filled]
  {
    steps := [];
    steps := Next(steps, NextValidId(1));
    hide Run;
    steps := Next(steps, SendOrder(REQUEST));
    steps := Next(steps, Emit(0));
    steps := Next(steps, Error(1, 504));
    steps := Next(steps, Status(1, Filled, 10.0, 5.0));
  }

  lemma Next(steps: seq<Step>, step: Step) returns (now: seq<Step>)
    requires Run(CBS, steps).Some? && Enabled(Run(CBS, steps).value, step)
    ensures now == steps + [step] && Run(CBS, now) == Some(Do(CBS, Run(CBS, steps).value, step))
  {
    RunOn(CBS, steps, step);
    now := steps + [step];
  }
}
