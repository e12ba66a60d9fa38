/** The historical downloader: one request per symbol is under way at a time, and each reply brings the
    symbol's next request or its end. */
module HistDownload {
  import opened Basics
  import opened HistChunks

  datatype Progress = InProgress | Success | Failed

  datatype Request = Request(symbol: string, chunk: Chunk)

  /** The downloader's fields, the gateway's counter of request ids, and what has happened so far:
      requests sent and not answered, all requests sent, and the number of replies. */
  datatype State = State(chunks: map<string, seq<Chunk>>, chunkId: map<string, nat>, status: map<string, Progress>,
                         remaining: int, q: seq<Request>, reqSymbol: map<int, string>,
                         nextReq: int, waiting: map<int, Request>, sent: seq<Request>, replies: nat)

  function StatusOf(s: State, symbol: string): Progress
  {
    if symbol in s.status then s.status[symbol] else InProgress
  }

  /** A request goes out; its id is known before any reply to it. */
  function Send(s: State): State
    requires s.q != []
  {
    var r := s.q[0];
    s.(q := s.q[1..], reqSymbol := s.reqSymbol[s.nextReq := r.symbol], nextReq := s.nextReq + 1,
       waiting := s.waiting[s.nextReq := r], sent := s.sent + [r])
  }

  /** The symbol has a current chunk, so a chunk may end. */
  predicate HasChunk(s: State, symbol: string)
  {
    symbol in s.chunkId && symbol in s.chunks && s.chunkId[symbol] < |s.chunks[symbol]|
  }

  /** process_hist_bar_end, when the data of a complete symbol is saved without error. */
  function OnEnd(s: State, id: int): State
    requires id in s.reqSymbol ==> HasChunk(s, s.reqSymbol[id])
  {
    if id !in s.reqSymbol then s
    else
      var symbol := s.reqSymbol[id];
      var next := s.chunkId[symbol] + 1;
      var t := s.(chunkId := s.chunkId[symbol := next], waiting := s.waiting - {id}, replies := s.replies + 1);
      if next == |s.chunks[symbol]| then
        if StatusOf(s, symbol) == InProgress then t.(status := s.status[symbol := Success], remaining := s.remaining - 1) else t
      else t.(q := s.q + [Request(symbol, s.chunks[symbol][next])])
  }

  /** process_err_msg. */
  function OnError(s: State, id: int): State
  {
    if id !in s.reqSymbol then s
    else
      var symbol := s.reqSymbol[id];
      s.(remaining := if StatusOf(s, symbol) == InProgress then s.remaining - 1 else s.remaining,
         status := s.status[symbol := Failed], waiting := s.waiting - {id}, replies := s.replies + 1)
  }

  datatype Step = SendNext | End(id: int) | Error(id: int)

  /** The sending loop runs while symbols remain; a request gets one reply; an error that is about
      something else has an id the downloader does not know. */
  predicate Enabled(s: State, step: Step)
  {
    match step
    case SendNext => s.remaining != 0 && s.q != []
    case End(id) => id in s.waiting && id in s.reqSymbol && HasChunk(s, s.reqSymbol[id])
    case Error(id) => id in s.waiting || id !in s.reqSymbol
  }

  function Do(s: State, step: Step): State
    requires Enabled(s, step)
  {
    match step
    case SendNext => Send(s)
    case End(id) => OnEnd(s, id)
    case Error(id) => OnError(s, id)
  }

  /** The symbols still being downloaded. */
  ghost function Live(s: State): set<string> { set x | x in s.chunkId && StatusOf(s, x) == InProgress }

  /** The chunks of a symbol that have been sent. */
  function SentFor(rs: seq<Request>, symbol: string): seq<Chunk>
  {
    if rs == [] then []
    else
      var r := rs[|rs| - 1];
      SentFor(rs[..|rs| - 1], symbol) + (if r.symbol == symbol then [r.chunk] else [])
  }

  ghost predicate Queued(s: State, symbol: string) { exists i :: 0 <= i < |s.q| && s.q[i].symbol == symbol }

  ghost predicate Waiting(s: State, symbol: string) { exists id :: id in s.waiting && s.waiting[id].symbol == symbol }

  ghost predicate Current(s: State, r: Request)
  {
    HasChunk(s, r.symbol) && r.chunk == s.chunks[r.symbol][s.chunkId[r.symbol]]
  }

  /** At most one token per symbol, and none that has no symbol in progress. */
  ghost predicate Tokens(s: State)
  {
    && (forall i, j :: 0 <= i < j < |s.q| ==> s.q[i].symbol != s.q[j].symbol)
    && (forall i, id :: 0 <= i < |s.q| && id in s.waiting ==> s.q[i].symbol != s.waiting[id].symbol)
    && (forall id, jd :: id in s.waiting && jd in s.waiting && id != jd ==> s.waiting[id].symbol != s.waiting[jd].symbol)
    && (forall x :: x in Live(s) <==> Queued(s, x) || Waiting(s, x))
  }

  /** A token asks for its symbol's current chunk. */
  ghost predicate Currents(s: State)
  {
    && (forall i :: 0 <= i < |s.q| ==> Current(s, s.q[i]))
    && (forall id :: id in s.waiting ==>
          Current(s, s.waiting[id]) && id in s.reqSymbol && s.reqSymbol[id] == s.waiting[id].symbol)
    && (forall id :: id in s.reqSymbol ==> id < s.nextReq)
  }

  /** What has been sent for a symbol: its first chunks in order, up to the one under way if any. */
  ghost predicate SentOk(s: State, x: string)
    requires x in s.chunkId && x in s.chunks
  {
    && s.chunkId[x] <= |s.chunks[x]|
    && (Queued(s, x) ==> SentFor(s.sent, x) == s.chunks[x][..s.chunkId[x]])
    && (Waiting(s, x) || StatusOf(s, x) == Failed ==>
          s.chunkId[x] < |s.chunks[x]| && SentFor(s.sent, x) == s.chunks[x][..s.chunkId[x] + 1])
    && (StatusOf(s, x) == Success ==> s.chunkId[x] == |s.chunks[x]| && SentFor(s.sent, x) == s.chunks[x])
  }

  /** Every symbol in progress has exactly one token, queued or waiting for its reply, for its current
      chunk; chunks go out in order; and the counter counts the symbols in progress. */
  ghost predicate Inv(s: State)
  {
    && Tokens(s) && Currents(s) && s.remaining == |Live(s)|
    && forall x :: x in s.chunkId ==> x in s.chunks && SentOk(s, x)
  }

  lemma SentAppend(rs: seq<Request>, r: Request, x: string)
    ensures SentFor(rs + [r], x) == SentFor(rs, x) + (if r.symbol == x then [r.chunk] else [])
  {
    assert (rs + [r])[..|rs|] == rs;
  }

  /** Sending turns the first queued token into a waiting one. */
  lemma SendMoves(s: State)
    requires Tokens(s) && Currents(s) && s.q != []
    ensures forall x :: Queued(Send(s), x) <==> Queued(s, x) && x != s.q[0].symbol
    ensures forall x :: Waiting(Send(s), x) <==> Waiting(s, x) || x == s.q[0].symbol
  {
    var t, r := Send(s), s.q[0];
    forall x
      ensures Queued(t, x) <==> Queued(s, x) && x != r.symbol
      ensures Waiting(t, x) <==> Waiting(s, x) || x == r.symbol
    {
      if Queued(s, x) && x != r.symbol {
        var i :| 0 <= i < |s.q| && s.q[i].symbol == x;
        assert t.q[i - 1].symbol == x;
      }
      if i :| 0 <= i < |t.q| && t.q[i].symbol == x { assert s.q[i + 1].symbol == x; }
      if id :| id in s.waiting && s.waiting[id].symbol == x { assert t.waiting[id].symbol == x; }
      if x == r.symbol { assert t.waiting[s.nextReq].symbol == x; }
    }
  }

  lemma SendTokens(s: State)
    requires Tokens(s) && Currents(s) && s.q != []
    ensures Tokens(Send(s)) && Currents(Send(s)) && Live(Send(s)) == Live(s)
    ensures forall x :: Queued(Send(s), x) <==> Queued(s, x) && x != s.q[0].symbol
    ensures forall x :: Waiting(Send(s), x) <==> Waiting(s, x) || x == s.q[0].symbol
  {
    SendMoves(s);
    assert Queued(s, s.q[0].symbol);
    assert Live(Send(s)) == Live(s);
    hide Queued, Waiting, Live, HasChunk;
  }

  lemma SentStep(s: State, t: State, x: string)
    requires x in s.chunkId && x in s.chunks && SentOk(s, x)
    requires x in t.chunkId && t.chunkId[x] == s.chunkId[x] && t.chunks == s.chunks && StatusOf(t, x) == StatusOf(s, x)
    requires (Queued(t, x) ==> Queued(s, x)) && (Waiting(t, x) ==> Waiting(s, x)) && SentFor(t.sent, x) == SentFor(s.sent, x)
    ensures SentOk(t, x)
  {
    hide Queued, Waiting;
  }

  lemma SendInv(s: State)
    requires Inv(s) && s.q != []
    ensures Inv(Send(s))
  {
    var t, r := Send(s), s.q[0];
    SendTokens(s);
    assert Queued(s, r.symbol) && Current(s, r) && r.symbol in Live(s);
    hide Queued, Waiting, Tokens, Currents, Current, SentOk, Live;
    forall x | x in t.chunkId
      ensures x in t.chunks && SentOk(t, x)
    {
      assert SentOk(s, x);
      SentAppend(s.sent, r, x);
      if x == r.symbol {
        FirstSent(s);
      } else {
        SentStep(s, t, x);
      }
    }
  }

  /** After a symbol's current chunk has been sent, its chunks up to that one have been. */
  lemma FirstSent(s: State)
    requires s.q != [] && Current(s, s.q[0]) && SentOk(s, s.q[0].symbol) && Queued(s, s.q[0].symbol)
    requires s.q[0].symbol in Live(s) && !Queued(Send(s), s.q[0].symbol) && Waiting(Send(s), s.q[0].symbol)
    ensures SentOk(Send(s), s.q[0].symbol)
  {
    hide Queued, Waiting;
    var x := s.q[0].symbol;
    SentAppend(s.sent, s.q[0], x);
    var n := s.chunkId[x];
    assert s.chunks[x][..n + 1] == s.chunks[x][..n] + [s.chunks[x][n]];
  }

  /** A reply takes away the token of its symbol. */
  lemma Untoken(s: State, id: int)
    requires Tokens(s) && id in s.waiting
    ensures var t := s.(waiting := s.waiting - {id});
            !Queued(t, s.waiting[id].symbol) && !Waiting(t, s.waiting[id].symbol)
            && (forall x :: Queued(t, x) <==> Queued(s, x))
            && (forall x :: x != s.waiting[id].symbol ==> (Waiting(t, x) <==> Waiting(s, x)))
  {
    var t := s.(waiting := s.waiting - {id});
    forall x
      ensures Queued(t, x) <==> Queued(s, x)
      ensures x != s.waiting[id].symbol ==> (Waiting(t, x) <==> Waiting(s, x))
    {
      if i :| 0 <= i < |s.q| && s.q[i].symbol == x { assert t.q[i].symbol == x; }
      if i :| 0 <= i < |t.q| && t.q[i].symbol == x { assert s.q[i].symbol == x; }
      if jd :| jd in s.waiting && s.waiting[jd].symbol == x { if jd != id { assert jd in t.waiting; } }
    }
  }

  lemma SameTokens(s: State, t: State)
    requires s.q == t.q && s.waiting == t.waiting
    ensures forall x :: (Queued(s, x) <==> Queued(t, x)) && (Waiting(s, x) <==> Waiting(t, x))
  {
  }

  /** A symbol that waits for a reply is in progress, and has nothing queued. */
  lemma WaitingFacts(s: State, id: int)
    requires Inv(s) && id in s.waiting
    ensures Current(s, s.waiting[id]) && id in s.reqSymbol && s.reqSymbol[id] == s.waiting[id].symbol
    ensures Waiting(s, s.waiting[id].symbol) && s.waiting[id].symbol in Live(s)
    ensures forall i :: 0 <= i < |s.q| ==> s.q[i].symbol != s.waiting[id].symbol
  {
  }

  /** A reply that ends a symbol: t differs from s in its token, its status and its count. */
  ghost predicate Ended(s: State, id: int, t: State, outcome: Progress)
  {
    id in s.waiting && (outcome == Failed || outcome == Success)
    && (var x := s.waiting[id].symbol;
    && x in s.chunkId
    && t == s.(waiting := s.waiting - {id}, status := s.status[x := outcome], remaining := s.remaining - 1,
               chunkId := if outcome == Success then s.chunkId[x := s.chunkId[x] + 1] else s.chunkId,
               replies := s.replies + 1))
  }

  lemma EndedTokens(s: State, id: int, t: State, outcome: Progress)
    requires Inv(s) && Ended(s, id, t, outcome)
    ensures Tokens(t) && t.remaining == |Live(t)|
    ensures forall y :: y != s.waiting[id].symbol ==> (Queued(t, y) <==> Queued(s, y)) && (Waiting(t, y) <==> Waiting(s, y))
    ensures !Queued(t, s.waiting[id].symbol) && !Waiting(t, s.waiting[id].symbol)
  {
    hide SentOk, Currents, Current;
    var x, u := s.waiting[id].symbol, s.(waiting := s.waiting - {id});
    assert x in Live(s) by { WaitingFacts(s, id); }
    Untoken(s, id);
    SameTokens(u, t);
    assert Live(t) == Live(s) - {x};
    TokensLess(s, id, t, x);
  }

  lemma TokensLess(s: State, id: int, t: State, x: string)
    requires Tokens(s) && id in s.waiting && t.q == s.q && t.waiting == s.waiting - {id}
    requires Live(t) == Live(s) - {x} && !Queued(t, x) && !Waiting(t, x)
    requires forall y :: y != x ==> (Queued(t, y) <==> Queued(s, y)) && (Waiting(t, y) <==> Waiting(s, y))
    ensures Tokens(t)
  {
    hide Queued, Waiting, Live;
  }

  lemma EndedCurrents(s: State, id: int, t: State, outcome: Progress)
    requires Inv(s) && Ended(s, id, t, outcome)
    ensures Currents(t)
  {
    hide Queued, Waiting, Live, SentOk;
    WaitingFacts(s, id);
  }

  lemma EndedInv(s: State, id: int, t: State, outcome: Progress)
    requires Inv(s) && Ended(s, id, t, outcome)
    requires outcome == Success ==> s.chunkId[s.waiting[id].symbol] + 1 == |s.chunks[s.waiting[id].symbol]|
    ensures Inv(t)
  {
    var x := s.waiting[id].symbol;
    EndedTokens(s, id, t, outcome);
    EndedCurrents(s, id, t, outcome);
    WaitingFacts(s, id);
    EndedSent(s, id, t, outcome);
    hide Queued, Waiting, Tokens, Currents, Live, SentOk;
    forall y | y in t.chunkId
      ensures y in t.chunks && SentOk(t, y)
    {
      assert SentOk(s, y);
      if y != x { SentStep(s, t, y); }
    }
  }

  lemma EndedSent(s: State, id: int, t: State, outcome: Progress)
    requires Ended(s, id, t, outcome) && s.waiting[id].symbol in s.chunks && SentOk(s, s.waiting[id].symbol)
    requires outcome == Success ==> s.chunkId[s.waiting[id].symbol] + 1 == |s.chunks[s.waiting[id].symbol]|
    requires Waiting(s, s.waiting[id].symbol) && !Queued(t, s.waiting[id].symbol) && !Waiting(t, s.waiting[id].symbol)
    ensures SentOk(t, s.waiting[id].symbol)
  {
    hide Queued, Waiting;
    var x := s.waiting[id].symbol;
    assert s.chunks[x][..|s.chunks[x]|] == s.chunks[x];
  }

  lemma NextEndTokens(s: State, id: int)
    requires Inv(s) && Enabled(s, End(id)) && s.chunkId[s.reqSymbol[id]] + 1 < |s.chunks[s.reqSymbol[id]]|
    ensures var t, x := OnEnd(s, id), s.waiting[id].symbol;
            Tokens(t) && Live(t) == Live(s) && !Waiting(t, x)
            && (forall y :: y != x ==> (Queued(t, y) <==> Queued(s, y)) && (Waiting(t, y) <==> Waiting(s, y)))
  {
    hide SentOk, Current, SentFor;
    var t, x, u := OnEnd(s, id), s.waiting[id].symbol, s.(waiting := s.waiting - {id});
    WaitingFacts(s, id);
    Untoken(s, id);
    hide Currents;
    assert Live(t) == Live(s);
    forall y
      ensures Queued(t, y) <==> Queued(s, y) || y == x
      ensures Waiting(t, y) <==> Waiting(u, y)
    {
      if i :| 0 <= i < |s.q| && s.q[i].symbol == y { assert t.q[i].symbol == y; }
      if y == x { assert t.q[|s.q|].symbol == y; }
    }
    TokensSwapped(s, id, t, x);
  }

  lemma TokensSwapped(s: State, id: int, t: State, x: string)
    requires Tokens(s) && id in s.waiting && s.waiting[id].symbol == x && x in Live(s) && Live(t) == Live(s)
    requires |t.q| == |s.q| + 1 && t.q[..|s.q|] == s.q && t.q[|s.q|].symbol == x && t.waiting == s.waiting - {id}
    requires forall i :: 0 <= i < |s.q| ==> s.q[i].symbol != x
    requires forall y :: Queued(t, y) <==> Queued(s, y) || y == x
    requires forall y :: y != x ==> (Waiting(t, y) <==> Waiting(s, y))
    requires !Waiting(t, x)
    ensures Tokens(t)
  {
    hide Queued, Waiting, Live;
    assert forall i :: 0 <= i < |s.q| ==> t.q[i] == s.q[i];
  }

  lemma NextEndCurrents(s: State, id: int)
    requires Inv(s) && Enabled(s, End(id)) && s.chunkId[s.reqSymbol[id]] + 1 < |s.chunks[s.reqSymbol[id]]|
    ensures Currents(OnEnd(s, id))
  {
    hide Queued, Waiting, Live, SentOk, SentFor;
    WaitingFacts(s, id);
  }

  lemma NextEndInv(s: State, id: int)
    requires Inv(s) && Enabled(s, End(id)) && s.chunkId[s.reqSymbol[id]] + 1 < |s.chunks[s.reqSymbol[id]]|
    ensures Inv(OnEnd(s, id))
  {
    var t, x := OnEnd(s, id), s.waiting[id].symbol;
    NextEndTokens(s, id);
    NextEndCurrents(s, id);
    WaitingFacts(s, id);
    hide Queued, Waiting, Tokens, Currents, Live, SentOk;
    forall y | y in t.chunkId
      ensures y in t.chunks && SentOk(t, y)
    {
      assert SentOk(s, y);
      if y == x { NextEndSent(s, id); } else { SentStep(s, t, y); }
    }
  }

  /** The reply for a chunk completes the chunks before the next one. */
  lemma NextEndSent(s: State, id: int)
    requires id in s.waiting && id in s.reqSymbol && s.reqSymbol[id] == s.waiting[id].symbol
    requires HasChunk(s, s.reqSymbol[id]) && s.chunkId[s.reqSymbol[id]] + 1 < |s.chunks[s.reqSymbol[id]]|
    requires s.reqSymbol[id] in Live(s) && SentOk(s, s.reqSymbol[id])
    requires Waiting(s, s.reqSymbol[id]) && !Waiting(OnEnd(s, id), s.reqSymbol[id])
    ensures SentOk(OnEnd(s, id), s.reqSymbol[id])
  {
    hide Queued, Waiting;
  }

  lemma StepInv(s: State, step: Step)
    requires Inv(s) && Enabled(s, step)
    ensures Inv(Do(s, step))
  {
    hide Inv, Live;
    match step {
      case SendNext => SendInv(s);
      case Error(id) =>
        if id in s.waiting {
          WaitingFacts(s, id);
          LiveIsInProgress(s, s.reqSymbol[id]);
          EndedInv(s, id, OnError(s, id), Failed);
        }
      case End(id) =>
        WaitingFacts(s, id);
        LiveIsInProgress(s, s.reqSymbol[id]);
        if s.chunkId[s.reqSymbol[id]] + 1 == |s.chunks[s.reqSymbol[id]]| {
          EndedInv(s, id, OnEnd(s, id), Success);
        } else {
          NextEndInv(s, id);
        }
    }
  }

  lemma LiveIsInProgress(s: State, x: string)
    requires x in Live(s)
    ensures StatusOf(s, x) == InProgress
  {
  }

  // ---- whole downloads

  /** The state after init and the first loop of run: each symbol with chunks has its first one queued. */
  ghost predicate Initial(s: State)
  {
    && (forall x :: x in s.chunkId ==> x in s.chunks && s.chunks[x] != [] && s.chunkId[x] == 0)
    && (forall x :: x in s.chunkId <==> Queued(s, x))
    && (forall i, j :: 0 <= i < j < |s.q| ==> s.q[i].symbol != s.q[j].symbol)
    && (forall i :: 0 <= i < |s.q| ==> Current(s, s.q[i]))
    && s.status == map[] && s.waiting == map[] && s.reqSymbol == map[] && s.sent == [] && s.replies == 0
    && s.remaining == |s.chunkId|
  }

  lemma InitialInv(s: State)
    requires Initial(s)
    ensures Inv(s) && Live(s) == s.chunkId.Keys
  {
    assert Live(s) == s.chunkId.Keys;
    assert |s.chunkId.Keys| == |s.chunkId|;
  }

  function Run(s: State, steps: seq<Step>): Option<State>
  {
    if steps == [] then Some(s)
    else
      var before := Run(s, steps[..|steps| - 1]);
      var step := steps[|steps| - 1];
      if before.Some? && Enabled(before.value, step) then Some(Do(before.value, step)) else None
  }

  /** Chunks of the given symbols still without a reply. */
  ghost function Work(s: State, symbols: set<string>): int
    requires forall x :: x in symbols ==> x in s.chunkId && x in s.chunks
  {
    if symbols == {} then 0
    else
      var x :| x in symbols;
      |s.chunks[x]| - s.chunkId[x] + Work(s, symbols - {x})
  }

  lemma {:induction false} WorkFrom(s: State, symbols: set<string>, x: string)
    requires (forall y :: y in symbols ==> y in s.chunkId && y in s.chunks) && x in symbols
    ensures Work(s, symbols) == |s.chunks[x]| - s.chunkId[x] + Work(s, symbols - {x})
    decreases |symbols|
  {
    var first :| first in symbols && Work(s, symbols) == |s.chunks[first]| - s.chunkId[first] + Work(s, symbols - {first});
    if first != x {
      assert symbols - {first} - {x} == symbols - {x} - {first};
      WorkFrom(s, symbols - {first}, x);
      WorkFrom(s, symbols - {x}, first);
    }
  }

  lemma {:induction false} WorkSame(s: State, t: State, symbols: set<string>)
    requires forall y :: y in symbols ==>
               y in s.chunkId && y in s.chunks && y in t.chunkId && y in t.chunks
               && s.chunks[y] == t.chunks[y] && s.chunkId[y] == t.chunkId[y]
    ensures Work(s, symbols) == Work(t, symbols)
  {
    if symbols != {} {
      var x :| x in symbols;
      WorkFrom(s, symbols, x);
      WorkFrom(t, symbols, x);
      WorkSame(s, t, symbols - {x});
    }
  }

  lemma {:induction false} WorkPositive(s: State, symbols: set<string>)
    requires forall y :: y in symbols ==> y in s.chunkId && y in s.chunks && s.chunkId[y] < |s.chunks[y]|
    ensures Work(s, symbols) >= |symbols|
  {
    if symbols != {} {
      var x :| x in symbols;
      WorkFrom(s, symbols, x);
      WorkPositive(s, symbols - {x});
    }
  }

  ghost function Left(s: State): int
    requires Inv(s)
  {
    Work(s, Live(s))
  }

  /** A reply to a request ends its symbol or moves it to the next chunk, and touches no other symbol. */
  lemma ReplyEffect(s: State, step: Step, id: int)
    requires Enabled(s, step) && (step == End(id) || step == Error(id))
    requires id in s.reqSymbol && s.reqSymbol[id] in Live(s) && s.reqSymbol[id] in s.chunks
    requires s.chunkId[s.reqSymbol[id]] < |s.chunks[s.reqSymbol[id]]|
    ensures var t, x := Do(s, step), s.reqSymbol[id];
            && t.chunks == s.chunks && t.replies == s.replies + 1
            && (forall y :: y in s.chunkId ==> y in t.chunkId && (y != x ==> t.chunkId[y] == s.chunkId[y]))
            && (Live(t) == Live(s) - {x} || (Live(t) == Live(s) && t.chunkId[x] == s.chunkId[x] + 1))
  {
    var t, x := Do(s, step), s.reqSymbol[id];
    if step.End? && s.chunkId[x] + 1 < |s.chunks[x]| {
      assert Live(t) == Live(s);
    } else {
      assert Live(t) == Live(s) - {x};
    }
  }

  /** Each reply to a request uses up work; nothing else changes it. */
  lemma StepWork(s: State, step: Step)
    requires Inv(s) && Enabled(s, step)
    ensures Inv(Do(s, step)) && Do(s, step).replies + Left(Do(s, step)) <= s.replies + Left(s)
  {
    hide Inv, Live, Current, Work;
    StepInv(s, step);
    LiveInMaps(s);
    if step.SendNext? {
      SendWork(s);
    } else if step.id in s.waiting {
      WaitingFacts(s, step.id);
      WaitingInMaps(s, step.id);
      ReplyEffect(s, step, step.id);
      EndWork(s, Do(s, step), s.waiting[step.id].symbol);
    }
  }

  lemma WaitingInMaps(s: State, id: int)
    requires id in s.waiting && Current(s, s.waiting[id])
    ensures var x := s.waiting[id].symbol; x in s.chunkId && x in s.chunks && s.chunkId[x] < |s.chunks[x]|
  {
  }

  lemma SendWork(s: State)
    requires Inv(s) && s.q != [] && Inv(Send(s))
    ensures Left(Send(s)) == Left(s) && Send(s).replies == s.replies
  {
    assert Live(Send(s)) == Live(s);
    LiveInMaps(s);
    hide Inv, Live;
    WorkSame(s, Send(s), Live(s));
  }

  lemma EndWork(s: State, t: State, x: string)
    requires Inv(s) && Inv(t) && x in Live(s) && t.chunks == s.chunks && s.chunkId[x] < |s.chunks[x]|
    requires Live(t) == Live(s) - {x} || (Live(t) == Live(s) && t.chunkId[x] == s.chunkId[x] + 1)
    requires forall y :: y in s.chunkId && y != x ==> y in t.chunkId && t.chunkId[y] == s.chunkId[y]
    ensures Left(t) + 1 <= Left(s)
  {
    hide Inv;
    LiveInMaps(s);
    LiveInMaps(t);
    WorkFrom(s, Live(s), x);
    WorkSame(s, t, Live(s) - {x});
    if Live(t) == Live(s) { WorkFrom(t, Live(t), x); }
  }

  lemma LiveInMaps(s: State)
    requires Inv(s)
    ensures forall y :: y in Live(s) ==> y in s.chunkId && y in s.chunks
  {
  }

  lemma {:induction false} RunKeeps(s: State, steps: seq<Step>)
    requires Initial(s) && Run(s, steps).Some?
    ensures Inv(s) && Inv(Run(s, steps).value)
    ensures Run(s, steps).value.replies + Left(Run(s, steps).value) <= Left(s)
  {
    InitialInv(s);
    if steps != [] {
      hide Inv, Left, Do, Enabled;
      RunKeeps(s, steps[..|steps| - 1]);
      StepWork(Run(s, steps[..|steps| - 1]).value, steps[|steps| - 1]);
    }
  }

  lemma OneToken(s: State, x: string)
    requires Inv(s) && x in Live(s)
    ensures (Queued(s, x) <==> !Waiting(s, x)) && x in s.chunkId && x in s.chunks && SentOk(s, x)
  {
  }

  /** Every run: the counter is the number of symbols in progress, and each of those has exactly one
      chunk queued or waiting for its reply. */
  lemma CounterAndTokens(s: State, steps: seq<Step>)
    requires Initial(s) && Run(s, steps).Some?
    ensures var t := Run(s, steps).value;
            && t.remaining == |Live(t)|
            && forall x :: x in Live(t) ==>
                 (Queued(t, x) <==> !Waiting(t, x)) && x in t.chunkId && x in t.chunks
                 && t.chunkId[x] <= |t.chunks[x]|
                 && (Queued(t, x) ==> SentFor(t.sent, x) == t.chunks[x][..t.chunkId[x]])
                 && (Waiting(t, x) ==> t.chunkId[x] < |t.chunks[x]| && SentFor(t.sent, x) == t.chunks[x][..t.chunkId[x] + 1])
  {
    hide Run;
    RunKeeps(s, steps);
    var t := Run(s, steps).value;
    forall x | x in Live(t)
      ensures (Queued(t, x) <==> !Waiting(t, x)) && x in t.chunkId && x in t.chunks && SentOk(t, x)
    {
      OneToken(t, x);
    }
  }

  /** The download finishes: it never takes more replies than there are chunks, and until nothing
      remains there is a request to send or a reply to wait for. */
  lemma Finishes(s: State, steps: seq<Step>)
    requires Initial(s) && Run(s, steps).Some?
    ensures var t := Run(s, steps).value;
            && t.replies <= Work(s, s.chunkId.Keys)
            && (t.remaining > 0 ==> t.q != [] || t.waiting != map[])
            && (t.replies == Work(s, s.chunkId.Keys) ==> t.remaining == 0)
  {
    hide Run;
    RunKeeps(s, steps);
    InitialInv(s);
    var t := Run(s, steps).value;
    assert forall x :: x in Live(t) ==> Queued(t, x) || Waiting(t, x);
    forall x | x in Live(t)
      ensures t.chunkId[x] < |t.chunks[x]|
    {
      if Queued(t, x) { var i :| 0 <= i < |t.q| && t.q[i].symbol == x; assert Current(t, t.q[i]); }
    }
    WorkPositive(t, Live(t));
    if t.remaining > 0 {
      var x :| x in Live(t);
      assert Queued(t, x) || Waiting(t, x);
    }
  }

  /** At any time in any run, each reply that is waited for may come, as an end or as an error, and so may an error about
      something else; a queued request may be sent while symbols remain, and then only. */
  lemma NothingWaits(s: State, steps: seq<Step>, id: int)
    requires Initial(s) && Run(s, steps).Some?
    ensures var t := Run(s, steps).value;
            && (id in t.waiting ==> Run(s, steps + [End(id)]).Some? && Run(s, steps + [Error(id)]).Some?)
            && (id !in t.reqSymbol ==> Run(s, steps + [Error(id)]) == Some(t))
            && (Run(s, steps + [SendNext]).Some? <==> t.remaining > 0 && t.q != [])
  {
    hide Run, OnEnd, Live, HasChunk, Queued, Waiting, SentFor;
    CounterAndTokens(s, steps);
    if id in Run(s, steps).value.waiting { RepliesFindTheirChunk(s, steps, id); }
    RunsGoOn(s, steps, End(id));
    RunsGoOn(s, steps, Error(id));
    RunsGoOn(s, steps, SendNext);
  }

  lemma RunsGoOn(s: State, steps: seq<Step>, step: Step)
    ensures Run(s, []) == Some(s)
    ensures Run(s, steps).Some? ==>
              Run(s, steps + [step])
              == if Enabled(Run(s, steps).value, step) then Some(Do(Run(s, steps).value, step)) else None
  {
    hide Enabled, Do;
    assert (steps + [step])[..|steps|] == steps;
  }

  /** Symbols that succeed have had all their chunks sent, in order, and none twice. */
  lemma SuccessMeansAllChunks(s: State, steps: seq<Step>, x: string)
    requires Initial(s) && Run(s, steps).Some? && x in Run(s, steps).value.chunkId
    requires StatusOf(Run(s, steps).value, x) == Success
    ensures var t := Run(s, steps).value; x in t.chunks && SentFor(t.sent, x) == t.chunks[x]
  {
    hide Run;
    RunKeeps(s, steps);
    assert SentOk(Run(s, steps).value, x);
  }

  // ---- from the ranges asked for to the chunks sent

  datatype HistBarReq = HistBarReq(symbol: string, start: int, end: int)

  /** What init leaves: every symbol with a range that is not empty has the chunks of one of its ranges. */
  ghost predicate Prepared(chunks: map<string, seq<Chunk>>, chunkId: map<string, nat>, reqs: seq<HistBarReq>, days: int)
  {
    && chunks.Keys == chunkId.Keys
    && (forall i :: 0 <= i < |reqs| && reqs[i].start < reqs[i].end ==> reqs[i].symbol in chunks)
    && forall x :: x in chunks ==> chunkId[x] == 0 && chunks[x] != [] && IsAsked(reqs, x, chunks[x], days)
  }

  ghost predicate IsAsked(reqs: seq<HistBarReq>, x: string, cs: seq<Chunk>, days: int)
  {
    exists i :: 0 <= i < |reqs| && reqs[i].symbol == x && Tiles(cs, reqs[i].start, reqs[i].end) && Shaped(cs, days)
  }

  lemma {:induction false} RunKeepsChunks(s: State, steps: seq<Step>)
    requires Run(s, steps).Some?
    ensures Run(s, steps).value.chunks == s.chunks
  {
    if steps != [] {
      RunKeepsChunks(s, steps[..|steps| - 1]);
    }
  }

  /** A download that succeeds has asked for its whole range: the requests sent for the symbol, in the order
      they went out, cover the range without gap or overlap. */
  lemma SuccessCoversTheRange(s: State, reqs: seq<HistBarReq>, days: int, steps: seq<Step>, x: string)
    requires Initial(s) && Prepared(s.chunks, s.chunkId, reqs, days)
    requires Run(s, steps).Some? && x in s.chunkId && StatusOf(Run(s, steps).value, x) == Success
    ensures IsAsked(reqs, x, SentFor(Run(s, steps).value.sent, x), days)
  {
    hide Initial;
    RunKeepsChunks(s, steps);
    RunKeepsSymbols(s, steps);
    hide Run, IsAsked;
    SuccessMeansAllChunks(s, steps, x);
  }

  lemma {:induction false} RunKeepsSymbols(s: State, steps: seq<Step>)
    requires Run(s, steps).Some?
    ensures s.chunkId.Keys <= Run(s, steps).value.chunkId.Keys
  {
    if steps != [] {
      RunKeepsSymbols(s, steps[..|steps| - 1]);
    }
  }

  /** In every run, a request that waits for a reply is registered, and an end finds the chunk it ends. */
  lemma RepliesFindTheirChunk(s: State, steps: seq<Step>, id: int)
    requires Initial(s) && Run(s, steps).Some? && id in Run(s, steps).value.waiting
    ensures var t := Run(s, steps).value; id in t.reqSymbol && HasChunk(t, t.reqSymbol[id]) && Enabled(t, End(id))
  {
    hide Run;
    RunKeeps(s, steps);
    WaitingFacts(Run(s, steps).value, id);
  }
}
