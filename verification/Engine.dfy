/** The event engine: callbacks registered by event kind and name, and the loop that takes one event
    at a time and hands it to each of its callbacks.  Every callback of the trading system pushes
    the event to a consumer's queue. */
module Engine {
  import opened Orders
  import opened Queues

  type Consumer = string

  datatype Kind = OrderKind | TimerKind | StopKind | OtherKind

  function KindOf(e: Event): Kind
  {
    match e
    case OrderEvent(_) => OrderKind
    case TimerEvent(_) => TimerKind
    case StopEvent => StopKind
    case OtherEvent(_) => OtherKind
  }

  /** Callbacks by event kind and name, each with the consumer whose queue it pushes to. */
  type Callbacks = map<Kind, map<string, Consumer>>

  function NamesFor(cbs: Callbacks, k: Kind): map<string, Consumer> { if k in cbs then cbs[k] else map[] }

  function At(m: map<Consumer, seq<Event>>, c: Consumer): seq<Event> { if c in m then m[c] else [] }

  /** The names of c's callbacks. */
  function NamesOf(names: map<string, Consumer>, c: Consumer): set<string> { set n | n in names && names[n] == c }

  function Copies(e: Event, n: nat): seq<Event> { seq(n, i => e) }

  /** What one round hands to consumer c: the front event, once for each of its callbacks. */
  function Handed(cbs: Callbacks, items: seq<Event>, c: Consumer): seq<Event>
  {
    if items == [] || items[0].StopEvent? then []
    else Copies(items[0], |NamesOf(NamesFor(cbs, KindOf(items[0])), c)|)
  }

  /** Events are of one kind exactly when they are of one type. */
  lemma KindsAreTypes(x: Event, y: Event)
    ensures KindOf(x) == KindOf(y) <==>
            (x.OrderEvent? && y.OrderEvent?) || (x.TimerEvent? && y.TimerEvent?) || (x.StopEvent? && y.StopEvent?)
            || (x.OtherEvent? && y.OtherEvent?)
  {
  }

  /** A consumer is handed the front event as often as its callbacks are registered for the event's kind. */
  lemma HandedMeans(cbs: Callbacks, e: Event, rest: seq<Event>, c: Consumer)
    ensures var h := Handed(cbs, [e] + rest, c);
            && (forall i :: 0 <= i < |h| ==> h[i] == e)
            && |h| == if e.StopEvent? || KindOf(e) !in cbs then 0
                      else |set n | n in cbs[KindOf(e)] && cbs[KindOf(e)][n] == c|
  {
    if KindOf(e) in cbs {
      assert NamesOf(cbs[KindOf(e)], c) == set n | n in cbs[KindOf(e)] && cbs[KindOf(e)][n] == c;
    } else {
      assert NamesOf(NamesFor(cbs, KindOf(e)), c) == {};
    }
  }

  /** Every callback but those in `left` has been called once. */
  ghost predicate CalledExcept(before: map<Consumer, seq<Event>>, now: map<Consumer, seq<Event>>, e: Event,
                               names: map<string, Consumer>, left: set<string>)
  {
    forall c :: At(now, c) == At(before, c) + Copies(e, |NamesOf(names, c) - left|)
  }

  lemma NoCallYet(before: map<Consumer, seq<Event>>, e: Event, names: map<string, Consumer>)
    ensures CalledExcept(before, before, e, names, names.Keys)
  {
    forall c
      ensures At(before, c) == At(before, c) + Copies(e, |NamesOf(names, c) - names.Keys|)
    {
      assert NamesOf(names, c) - names.Keys == {};
    }
  }

  lemma AllCalled(before: map<Consumer, seq<Event>>, now: map<Consumer, seq<Event>>, e: Event, names: map<string, Consumer>)
    requires CalledExcept(before, now, e, names, {})
    ensures forall c :: At(now, c) == At(before, c) + Copies(e, |NamesOf(names, c)|)
  {
    forall c
      ensures At(now, c) == At(before, c) + Copies(e, |NamesOf(names, c)|)
    {
      assert NamesOf(names, c) - {} == NamesOf(names, c);
    }
  }

  lemma OneMoreCall(e: Event, names: map<string, Consumer>, left: set<string>, name: string, c: Consumer)
    requires name in left && name in names
    ensures Copies(e, |NamesOf(names, c) - (left - {name})|) ==
            Copies(e, |NamesOf(names, c) - left|) + (if names[name] == c then [e] else [])
  {
    if names[name] == c {
      assert NamesOf(names, c) - (left - {name}) == (NamesOf(names, c) - left) + {name};
    } else {
      assert NamesOf(names, c) - (left - {name}) == NamesOf(names, c) - left;
    }
  }

  lemma CallAdds(before: map<Consumer, seq<Event>>, was: map<Consumer, seq<Event>>, e: Event,
                 names: map<string, Consumer>, left: set<string>, name: string)
    requires CalledExcept(before, was, e, names, left) && name in left && name in names
    ensures var c := names[name];
            CalledExcept(before, was[c := At(was, c) + [e]], e, names, left - {name})
  {
    hide Copies, NamesOf;
    var c := names[name];
    var now := was[c := At(was, c) + [e]];
    forall d
      ensures At(now, d) == At(before, d) + Copies(e, |NamesOf(names, d) - (left - {name})|)
    {
      assert At(was, d) == At(before, d) + Copies(e, |NamesOf(names, d) - left|);
      OneMoreCall(e, names, left, name, d);
    }
  }

  class EventEngine {
    var cbs: Callbacks
    var running: bool
    const q: LBQueue<Event>
    var inboxes: map<Consumer, seq<Event>>   // the consumers' queues

    constructor (q: LBQueue<Event>)
      ensures cbs == map[] && !running && inboxes == map[] && this.q == q
    {
      cbs, running, inboxes := map[], false, map[];
      this.q := q;
    }

    /** Registers or replaces a callback, unless the engine is running. */
    method RegisterCb(k: Kind, name: string, c: Consumer) returns (ok: bool)
      modifies this`cbs
      ensures ok <==> !running
      ensures cbs == if running then old(cbs) else old(cbs)[k := NamesFor(old(cbs), k)[name := c]]
      ensures !running ==> k in cbs && name in cbs[k] && cbs[k][name] == c
      ensures forall j, n :: j in old(cbs) && n in old(cbs)[j] && (j != k || n != name) ==>
                j in cbs && n in cbs[j] && cbs[j][n] == old(cbs)[j][n]
    {
      if running {
        return false;
      }
      cbs := cbs[k := NamesFor(cbs, k)[name := c]];
      return true;
    }

    method Send(e: Event)
      modifies q
      ensures q.items == old(q.items) + [e]
    {
      q.WaitPush(e);
    }

    /** Calls every callback once. */
    method CallAll(e: Event, names: map<string, Consumer>)
      modifies this`inboxes
      ensures forall c :: At(inboxes, c) == old(At(inboxes, c)) + Copies(e, |NamesOf(names, c)|)
    {
      hide CalledExcept;
      var left := names.Keys;
      ghost var before := inboxes;
      NoCallYet(inboxes, e, names);
      while left != {}
        invariant left <= names.Keys
        invariant CalledExcept(before, inboxes, e, names, left)
        decreases left
      {
        var name :| name in left;
        var c := names[name];
        ghost var was, sofar := inboxes, left;
        inboxes := inboxes[c := At(inboxes, c) + [e]];
        left := left - {name};
        CallAdds(before, was, e, names, sofar, name);
      }
      AllCalled(before, inboxes, e, names);
    }

    /** One round of the loop: every consumer gets the front event once for each of its callbacks;
        a stop event ends the loop instead, and an empty queue does nothing. */
    method RunOnce()
      modifies this`running, this`inboxes, q
      ensures q.items == if old(q.items) == [] then [] else old(q.items)[1..]
      ensures running == (old(running) && (old(q.items) == [] || !old(q.items)[0].StopEvent?))
      ensures forall c :: At(inboxes, c) == old(At(inboxes, c)) + Handed(cbs, old(q.items), c)
    {
      var ok, e := q.TryPop(OtherEvent(0));
      if ok {
        if e.StopEvent? {
          running := false;
        } else {
          CallAll(e, NamesFor(cbs, KindOf(e)));
        }
      }
    }
  }
}
