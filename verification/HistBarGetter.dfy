/** The downloader as an object: its fields, its callbacks and the rounds of its sending loop. */
module HistBarGetters {
  import opened HistChunks
  import opened HistDownload

  class HistBarGetter {
    var chunks: map<string, seq<Chunk>>
    var chunkId: map<string, nat>
    var status: map<string, Progress>
    var remaining: int
    var q: seq<Request>
    var reqSymbol: map<int, string>
    var nextReq: int                        // the gateway's counter of request ids
    ghost var waiting: map<int, Request>    // requests without a reply
    ghost var sent: seq<Request>            // all requests
    ghost var replies: nat

    ghost function Now(): State
      reads this
    {
      State(chunks, chunkId, status, remaining, q, reqSymbol, nextReq, waiting, sent, replies)
    }

    /** init */
    constructor (reqs: seq<HistBarReq>, days: int, firstId: int)
      requires days >= 1
      ensures Prepared(chunks, chunkId, reqs, days) && remaining == |chunkId|
      ensures Now() == State(chunks, chunkId, map[], remaining, [], map[], firstId, map[], [], 0)
    {
      chunks, chunkId, status, q, reqSymbol, nextReq := map[], map[], map[], [], map[], firstId;
      waiting, sent, replies := map[], [], 0;
      new;
      hide Prepared;
      AddRequests(reqs, days);
      remaining := |chunkId|;
    }

    method AddRequests(reqs: seq<HistBarReq>, days: int)
      requires days >= 1 && chunks == map[] && chunkId == map[]
      modifies this`chunks, this`chunkId
      ensures Prepared(chunks, chunkId, reqs, days)
    {
      assert Prepared(chunks, chunkId, [], days) && reqs[..0] == [];
      hide Prepared;
      for i := 0 to |reqs|
        invariant Prepared(chunks, chunkId, reqs[..i], days)
      {
        AddRequest(reqs, i, days);
      }
      assert reqs[..|reqs|] == reqs;
    }

    /** A round of init's loop. */
    method AddRequest(reqs: seq<HistBarReq>, i: nat, days: int)
      requires days >= 1 && i < |reqs| && Prepared(chunks, chunkId, reqs[..i], days)
      modifies this`chunks, this`chunkId
      ensures Prepared(chunks, chunkId, reqs[..i + 1], days)
    {
      hide Prepared, Tiles, Shaped;
      var cs := GenerateRequests(reqs[i].start, reqs[i].end, days);
      OneMorePrepared(chunks, chunkId, reqs, i, cs, days);
      if cs != [] {
        chunks := chunks[reqs[i].symbol := cs];
        chunkId := chunkId[reqs[i].symbol := 0];
      }
    }

    /** The first loop of run: the first chunk of every symbol is queued, in any order. */
    method QueueFirstChunks(ghost reqs: seq<HistBarReq>, ghost days: int)
      requires Prepared(chunks, chunkId, reqs, days) && remaining == |chunkId|
      requires Now() == State(chunks, chunkId, map[], remaining, [], map[], nextReq, map[], [], 0)
      modifies this`q
      ensures Initial(Now())
    {
      AllPrepared(chunks, chunkId, reqs, days);
      hide Prepared, Initial, FirstQueued;
      QueueAll();
      AllQueued(Now());
    }

    method QueueAll()
      requires q == [] && forall x :: x in chunks ==> HasChunk(Now(), x) && chunkId[x] == 0
      modifies this`q
      ensures FirstQueued(Now(), chunks.Keys)
    {
      hide FirstQueued;
      var left := chunks.Keys;
      ghost var done := {};
      NoneQueued(Now());
      while left != {}
        invariant done !! left && done + left == chunks.Keys && FirstQueued(Now(), done)
        decreases left
      {
        var x :| x in left;
        QueueFirst(x, done);
        left, done := left - {x}, done + {x};
      }
      assert done == chunks.Keys;
    }

    method QueueFirst(x: string, ghost done: set<string>)
      requires HasChunk(Now(), x) && chunkId[x] == 0 && x !in done && FirstQueued(Now(), done)
      modifies this`q
      ensures q == old(q) + [Request(x, chunks[x][0])] && FirstQueued(Now(), done + {x})
    {
      hide FirstQueued;
      FirstQueuedAlso(Now(), done, x);
      q := q + [Request(x, chunks[x][0])];
    }

    /** A round of the second loop of run. */
    method SendRound()
      requires remaining != 0
      modifies this
      ensures Now() == if old(q) == [] then old(Now()) else Send(old(Now()))
    {
      if q != [] {
        var req := q[0];
        q := q[1..];
        var id := nextReq;
        nextReq := nextReq + 1;
        reqSymbol := reqSymbol[id := req.symbol];
        waiting, sent := waiting[id := req], sent + [req];
      }
    }

    method ProcessHistBarEnd(id: int)
      requires id in reqSymbol ==> HasChunk(Now(), reqSymbol[id])
      modifies this
      ensures Now() == OnEnd(old(Now()), id)
    {
      if id !in reqSymbol {
        return;
      }
      var symbol := reqSymbol[id];
      waiting, replies := waiting - {id}, replies + 1;
      chunkId := chunkId[symbol := chunkId[symbol] + 1];
      if chunkId[symbol] == |chunks[symbol]| {
        if symbol !in status || status[symbol] == InProgress {
          status := status[symbol := Success];
          remaining := remaining - 1;
        }
      } else {
        q := q + [Request(symbol, chunks[symbol][chunkId[symbol]])];
      }
    }

    method ProcessErrMsg(id: int)
      modifies this
      ensures Now() == OnError(old(Now()), id)
    {
      if id in reqSymbol {
        var symbol := reqSymbol[id];
        waiting, replies := waiting - {id}, replies + 1;
        if symbol !in status || status[symbol] == InProgress {
          remaining := remaining - 1;
        }
        status := status[symbol := Failed];
      }
    }
  }

  /** The symbols of `done`, and only they, have their first chunk queued, once. */
  ghost predicate FirstQueued(s: State, done: set<string>)
  {
    && (forall x :: x in done <==> Queued(s, x))
    && (forall i, j :: 0 <= i < j < |s.q| ==> s.q[i].symbol != s.q[j].symbol)
    && (forall i :: 0 <= i < |s.q| ==> Current(s, s.q[i]))
  }

  lemma NoneQueued(s: State)
    requires s.q == []
    ensures FirstQueued(s, {})
  {
  }

  lemma FirstQueuedAlso(s: State, done: set<string>, x: string)
    requires FirstQueued(s, done) && x !in done && HasChunk(s, x) && s.chunkId[x] == 0
    ensures FirstQueued(s.(q := s.q + [Request(x, s.chunks[x][0])]), done + {x})
  {
    var r := Request(x, s.chunks[x][0]);
    QueuedAlso(s, r);
    assert forall i :: 0 <= i < |s.q| ==> Queued(s, s.q[i].symbol);
    hide Queued;
  }

  lemma AllPrepared(chunks: map<string, seq<Chunk>>, chunkId: map<string, nat>, reqs: seq<HistBarReq>, days: int)
    requires Prepared(chunks, chunkId, reqs, days)
    ensures chunks.Keys == chunkId.Keys && forall x :: x in chunks ==> chunkId[x] == 0 && chunks[x] != []
  {
  }

  lemma AllQueued(s: State)
    requires FirstQueued(s, s.chunkId.Keys) && s.chunks.Keys == s.chunkId.Keys
    requires forall x :: x in s.chunks ==> s.chunkId[x] == 0 && s.chunks[x] != []
    requires s == State(s.chunks, s.chunkId, map[], |s.chunkId|, s.q, map[], s.nextReq, map[], [], 0)
    ensures Initial(s)
  {
    hide Queued;
  }

  lemma QueuedAlso(s: State, r: Request)
    ensures forall x :: Queued(s.(q := s.q + [r]), x) <==> Queued(s, x) || x == r.symbol
  {
    var t := s.(q := s.q + [r]);
    forall x
      ensures Queued(t, x) <==> Queued(s, x) || x == r.symbol
    {
      if i :| 0 <= i < |s.q| && s.q[i].symbol == x { assert t.q[i].symbol == x; }
      if x == r.symbol { assert t.q[|s.q|].symbol == x; }
    }
  }

  lemma OneMorePrepared(chunks: map<string, seq<Chunk>>, chunkId: map<string, nat>, reqs: seq<HistBarReq>, i: nat,
                        cs: seq<Chunk>, days: int)
    requires i < |reqs| && Prepared(chunks, chunkId, reqs[..i], days)
    requires Tiles(cs, reqs[i].start, reqs[i].end) && Shaped(cs, days)
    ensures if cs == [] then Prepared(chunks, chunkId, reqs[..i + 1], days)
            else Prepared(chunks[reqs[i].symbol := cs], chunkId[reqs[i].symbol := 0], reqs[..i + 1], days)
  {
    var x := reqs[i].symbol;
    assert cs != [] ==> IsAsked(reqs[..i + 1], x, cs, days) by { assert reqs[..i + 1][i] == reqs[i]; }
    forall y | y in chunks
      ensures IsAsked(reqs[..i + 1], y, chunks[y], days)
    {
      var j :| 0 <= j < i && reqs[..i][j].symbol == y && Tiles(chunks[y], reqs[..i][j].start, reqs[..i][j].end)
               && Shaped(chunks[y], days);
      assert reqs[..i + 1][j] == reqs[..i][j];
    }
    assert forall j :: 0 <= j < i ==> reqs[..i + 1][j] == reqs[..i][j];
  }
}
