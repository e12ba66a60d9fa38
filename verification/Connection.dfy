/** A sender and a reader at work at the same time: messages are posted, buffers are flushed, bytes arrive and are
    read, in any order and in pieces of any size. */
module Connection {
  import opened Basics
  import opened Framing
  import opened Wire

  /** The reader between two steps: `partial` is what it has read of the message under way. */
  datatype Reader = Reader(delivered: seq<seq<Byte>>, partial: seq<Byte>, buf: seq<Byte>, stopped: bool)

  /** How many bytes the read under way still needs: of the header, then of the payload. */
  function Want(r: Reader): int
  {
    if |r.partial| < HEADER_LEN then HEADER_LEN - |r.partial|
    else HEADER_LEN + Int32(r.partial[..HEADER_LEN]) - |r.partial|
  }

  /** The inner loop of bufferedRead: receive more. */
  predicate Waiting(r: Reader) { !r.stopped && |r.buf| < Want(r) && |r.buf| < IN_BUF_SIZE }

  /** After that loop: bytes can be copied out of the buffer. */
  predicate Copying(r: Reader) { !r.stopped && !(|r.buf| < Want(r) && |r.buf| < IN_BUF_SIZE) && Want(r) > 0 }

  /** The copy, and what readSingleMsg does when it completes the header or the payload. */
  function Copy(r: Reader): Reader
    requires Copying(r)
  {
    var n := if IN_BUF_SIZE < Want(r) then IN_BUF_SIZE else Want(r);
    var partial, buf := r.partial + r.buf[..n], r.buf[n..];
    if |partial| < HEADER_LEN then r.(partial := partial, buf := buf)
    else
      var size := Int32(partial[..HEADER_LEN]);
      if size <= 0 || size > MAX_MSG_LEN then r.(partial := partial, buf := buf, stopped := true)
      else if |partial| == HEADER_LEN + size then
        r.(delivered := r.delivered + [partial[HEADER_LEN..]], partial := [], buf := buf)
      else r.(partial := partial, buf := buf)
  }

  /** The payloads posted, the sender's buffer, the bytes it got rid of, those that have arrived, and the reader. */
  datatype State = State(ps: seq<seq<Byte>>, outBuffer: seq<Byte>, accepted: seq<Byte>, received: seq<Byte>, reader: Reader)

  const START := State([], [], [], [], Reader([], [], [], false))

  /** In Post and Flush, n is what the socket's send returns. */
  datatype Step = Post(p: seq<Byte>, n: int) | Flush(n: int) | Receive(n: int) | Read

  predicate Enabled(s: State, step: Step)
  {
    match step
    case Post(p, n) => p != [] && -1 <= n <= |s.outBuffer| + |Frame(p)| <= INT_MAX
    case Flush(n) => -1 <= n <= |s.outBuffer|
    case Receive(n) => Waiting(s.reader) && 1 <= n <= |s.accepted| - |s.received| && |s.reader.buf| + n <= IN_BUF_SIZE
    case Read => Copying(s.reader)
  }

  function Do(s: State, step: Step): State
    requires Enabled(s, step)
  {
    match step
    case Post(p, n) =>
      var all := s.outBuffer + Frame(p);
      s.(ps := s.ps + [p], outBuffer := all[Taken(n)..], accepted := s.accepted + all[..Taken(n)])
    case Flush(n) =>
      s.(outBuffer := s.outBuffer[Taken(n)..], accepted := s.accepted + s.outBuffer[..Taken(n)])
    case Receive(n) =>
      var piece := s.accepted[|s.received|..|s.received| + n];
      s.(received := s.received + piece, reader := s.reader.(buf := s.reader.buf + piece))
    case Read => s.(reader := Copy(s.reader))
  }

  /** The state after a run from the start, if each step was enabled. */
  function Run(steps: seq<Step>): Option<State>
  {
    if steps == [] then Some(START)
    else
      var before := Run(steps[..|steps| - 1]);
      var step := steps[|steps| - 1];
      if before.Some? && Enabled(before.value, step) then Some(Do(before.value, step)) else None
  }

  // ---- the steps leave nothing out

  /** A run goes on with any step that can happen. */
  lemma RunsGoOn(steps: seq<Step>, step: Step)
    ensures Run([]).Some?
    ensures Run(steps).Some? && Enabled(Run(steps).value, step) ==> Run(steps + [step]) == Some(Do(Run(steps).value, step))
  {
    hide Enabled, Do;
    assert (steps + [step])[..|steps|] == steps;
  }

  /** A reader in the middle of a message wants what is missing of the header, and then what is missing of the payload. */
  lemma WantsTheRest(r: Reader, p: seq<Byte>, k: nat)
    requires Sendable(p) && k < |Frame(p)| && r.partial == Frame(p)[..k]
    ensures Want(r) == if k < 4 then 4 - k else 4 + |p| - k
  {
    hide Int32;
    LengthRoundTrip(|p|);
    if k >= HEADER_LEN { assert r.partial[..HEADER_LEN] == BigEndian(|p|); }
  }

  /** However many of the bytes that wait and of a message the socket takes, none included, that is a step. */
  lemma AnyPostIsAStep(s: State, p: seq<Byte>, k: nat)
    requires p != [] && k <= |s.outBuffer + Frame(p)| <= 2147483647
    ensures exists n :: Enabled(s, Post(p, n)) &&
                        Do(s, Post(p, n)) == s.(ps := s.ps + [p], accepted := s.accepted + (s.outBuffer + Frame(p))[..k],
                                                outBuffer := (s.outBuffer + Frame(p))[k..])
  {
    hide Frame;
    assert Enabled(s, Post(p, k)) && Taken(k) == k;
  }

  /** So is any flush. */
  lemma AnyFlushIsAStep(s: State, k: nat)
    requires k <= |s.outBuffer|
    ensures exists n :: Enabled(s, Flush(n)) &&
                        Do(s, Flush(n)) == s.(accepted := s.accepted + s.outBuffer[..k], outBuffer := s.outBuffer[k..])
  {
    assert Enabled(s, Flush(k)) && Taken(k) == k;
  }

  /** So is, for a reader that needs more, the arrival of any number of bytes on their way that fit its buffer. */
  lemma AnyArrivalIsAStep(s: State, k: nat)
    requires Waiting(s.reader) && 1 <= k
    ensures Enabled(s, Receive(k)) <==> |s.received| + k <= |s.accepted| && |s.reader.buf| + k <= 8192
    ensures Enabled(s, Receive(k)) ==>
              Do(s, Receive(k)) == s.(received := s.received + s.accepted[|s.received|..|s.received| + k],
                                      reader := s.reader.(buf := s.reader.buf + s.accepted[|s.received|..|s.received| + k]))
  {
  }

  // ---- what every step keeps

  predicate SizeOk(h: seq<Byte>)
    requires |h| == HEADER_LEN
  {
    0 < Int32(h) <= MAX_MSG_LEN
  }

  /** The message under way is not complete; a reader has stopped only for a length it does not take. */
  predicate PartialOk(r: Reader)
  {
    if |r.partial| < HEADER_LEN then !r.stopped
    else if r.stopped then !SizeOk(r.partial[..HEADER_LEN])
    else SizeOk(r.partial[..HEADER_LEN]) && |r.partial| < HEADER_LEN + Int32(r.partial[..HEADER_LEN])
  }

  ghost predicate ReaderOk(r: Reader, received: seq<Byte>)
  {
    && PartialOk(r) && |r.buf| <= IN_BUF_SIZE && (forall i :: 0 <= i < |r.delivered| ==> Sendable(r.delivered[i]))
    && Frames(r.delivered) + r.partial + r.buf == received
  }

  ghost predicate SenderOk(s: State)
  {
    s.accepted + s.outBuffer == Frames(s.ps) && forall i :: 0 <= i < |s.ps| ==> s.ps[i] != []
  }

  ghost predicate Inv(s: State) { SenderOk(s) && s.received <= s.accepted && ReaderOk(s.reader, s.received) }

  lemma TakenBound(n: int, m: nat)
    requires n <= m
    ensures Taken(n) <= m
  {
  }

  lemma PostKeeps(s: State, p: seq<Byte>, n: int)
    requires SenderOk(s) && Enabled(s, Post(p, n))
    ensures SenderOk(Do(s, Post(p, n)))
  {
    hide Frame, Frames, Taken;
    var all := s.outBuffer + Frame(p);
    assert Taken(n) <= |all| by { TakenBound(n, |all|); }
    assert all == all[..Taken(n)] + all[Taken(n)..];
    FramesConcat(s.ps, [p]);
    FramesOne(p);
  }

  lemma FlushKeeps(s: State, n: int)
    requires SenderOk(s) && Enabled(s, Flush(n))
    ensures SenderOk(Do(s, Flush(n)))
  {
    hide Frames;
    assert s.outBuffer == s.outBuffer[..Taken(n)] + s.outBuffer[Taken(n)..];
  }

  lemma CopyKeeps(r: Reader, received: seq<Byte>)
    requires ReaderOk(r, received) && Copying(r)
    ensures ReaderOk(Copy(r), received)
  {
    hide Frames, Frame, Int32;
    var n := if IN_BUF_SIZE < Want(r) then IN_BUF_SIZE else Want(r);
    var partial, buf := r.partial + r.buf[..n], r.buf[n..];
    assert r.buf == r.buf[..n] + buf;
    assert Frames(r.delivered) + partial + buf == received;
    if |r.partial| >= HEADER_LEN { assert partial[..HEADER_LEN] == r.partial[..HEADER_LEN]; }
    if Copy(r).delivered != r.delivered {
      BytesOfFrame(partial);
      FramesConcat(r.delivered, [partial[HEADER_LEN..]]);
      FramesOne(partial[HEADER_LEN..]);
    }
  }

  lemma ReceiveKeeps(s: State, n: int)
    requires s.received <= s.accepted && ReaderOk(s.reader, s.received) && Enabled(s, Receive(n))
    ensures var t := Do(s, Receive(n)); t.received <= t.accepted && ReaderOk(t.reader, t.received)
  {
    hide Frames, Int32;
  }

  lemma StepKeeps(s: State, step: Step)
    requires Inv(s) && Enabled(s, step)
    ensures Inv(Do(s, step))
  {
    hide SenderOk, ReaderOk, Frame;
    match step {
      case Post(p, n) => PostKeeps(s, p, n);
      case Flush(n) => FlushKeeps(s, n);
      case Receive(n) =>
        ReceiveKeeps(s, n);
        SenderAside(s, Do(s, step));
      case Read =>
        CopyKeeps(s.reader, s.received);
        SenderAside(s, Do(s, step));
    }
  }

  lemma SenderAside(s: State, t: State)
    requires SenderOk(s) && s.ps == t.ps && s.outBuffer == t.outBuffer && s.accepted == t.accepted
    ensures SenderOk(t)
  {
  }

  lemma {:induction false} RunKeeps(steps: seq<Step>)
    requires Run(steps).Some?
    ensures Inv(Run(steps).value)
  {
    if steps != [] {
      hide Inv, Do, Enabled;
      RunKeeps(steps[..|steps| - 1]);
      StepKeeps(Run(steps[..|steps| - 1]).value, steps[|steps| - 1]);
    }
  }

  // ---- what the reader delivers

  /** At any time in any run, what has been delivered is the first of what has been posted. */
  lemma AlwaysInOrder(steps: seq<Step>)
    requires Run(steps).Some?
    ensures Run(steps).value.reader.delivered <= Run(steps).value.ps
  {
    hide Run, Frames;
    RunKeeps(steps);
    var s := Run(steps).value;
    var r := s.reader;
    DeliveredInOrder(s.ps, r.delivered, r.partial, r.buf, s.received, s.accepted, s.outBuffer);
  }

  /** The reader has nothing to do: it has stopped, or it waits for bytes and there are none. */
  predicate Idle(s: State) { s.reader.stopped || (Waiting(s.reader) && |s.received| == |s.accepted|) }

  /** Unless it is idle the reader has a step, and each of its steps uses up something. */
  lemma ReaderProgress(steps: seq<Step>)
    requires Run(steps).Some?
    ensures var s := Run(steps).value;
            (Idle(s) <==> !Enabled(s, Read) && forall n :: !Enabled(s, Receive(n)))
            && (Enabled(s, Read) ==> Due(Do(s, Read)) < Due(s))
            && (forall n :: Enabled(s, Receive(n)) ==> Due(Do(s, Receive(n))) < Due(s)) && Due(s) >= 0
  {
    hide Run, Frames, Int32;
    RunKeeps(steps);
    var s := Run(steps).value;
    assert Want(s.reader) > 0 || s.reader.stopped;
    if !Idle(s) && !Enabled(s, Read) { assert Enabled(s, Receive(1)); }
  }

  function Due(s: State): int { 2 * (|s.accepted| - |s.received|) + |s.reader.buf| }

  /** The message under way is not there yet, or of a length no reader takes. */
  lemma NothingReadable(r: Reader, rest: seq<Byte>)
    requires PartialOk(r) && (r.stopped || (Waiting(r) && rest == []))
    ensures FirstFrame(r.partial + r.buf + rest) == None
  {
    hide Int32;
    var x := r.partial + r.buf + rest;
    if |r.partial| >= HEADER_LEN { assert x[..HEADER_LEN] == r.partial[..HEADER_LEN]; }
  }

  /** Once the reader is idle it has delivered every message that the socket accepted whole, as far as the first
      that is too long; and with nothing left to send it has delivered all that was posted if and only if no
      payload is too long. */
  lemma IdleMeansDelivered(steps: seq<Step>)
    requires Run(steps).Some? && Idle(Run(steps).value)
    ensures var s := Run(steps).value;
            && s.reader.delivered == Payloads(s.accepted)
            && ((forall i :: 0 <= i < |s.ps| ==> Sendable(s.ps[i])) ==> s.reader.delivered == s.ps[..Whole(s.ps, |s.accepted|)])
            && (s.outBuffer == [] ==>
                  (s.reader.delivered == s.ps <==> forall i :: 0 <= i < |s.ps| ==> |s.ps[i]| <= MAX_MSG_LEN))
  {
    hide Run, Frames, FirstFrame, Int32, Waiting, PartialOk;
    RunKeeps(steps);
    var s := Run(steps).value;
    var r, rest := s.reader, s.accepted[|s.received|..];
    NothingReadable(r, rest);
    PayloadsAfter(r.delivered, r.partial + r.buf + rest);
    assert s.accepted == s.received + rest == Frames(r.delivered) + (r.partial + r.buf + rest);
    if forall i :: 0 <= i < |s.ps| ==> Sendable(s.ps[i]) { DeliveredWhole(s.ps, s.accepted, s.outBuffer); }
    if s.outBuffer == [] { AllReadIff(s.ps); }
  }

  // ---- the same with the objects

  /** A sender that posts some messages and flushes its buffer whenever it likes, and then a reader that takes
      what has been accepted. */
  method Session(ps: seq<seq<Byte>>) returns (socket: EClientSocket, reader: EReader)
    requires |Frames(ps)| <= INT_MAX && forall i :: 0 <= i < |ps| ==> ps[i] != []
    ensures socket.accepted + socket.outBuffer == Frames(ps) && reader.queue == Payloads(socket.accepted)
    ensures (forall i :: 0 <= i < |ps| ==> Sendable(ps[i])) ==>
              reader.queue == ps[..Whole(ps, |socket.accepted|)] && (socket.outBuffer == [] ==> reader.queue == ps)
  {
    hide Frames, Frame, Payloads, Sendable;
    socket := new EClientSocket();
    assert socket.accepted + socket.outBuffer == Frames(ps[..0]) by { NoFrames(); }
    for i := 0 to |ps|
      invariant fresh(socket) && socket.accepted + socket.outBuffer == Frames(ps[..i])
    {
      FramesUpTo(ps, i);
      assert |socket.accepted| + |socket.outBuffer| == |Frames(ps[..i])|;
      FlushSome(socket);
      assert |socket.accepted| + |socket.outBuffer| == |Frames(ps[..i])|;
      assert ps[i] != [];
      var ok := socket.SendMessage(ps[i]);
    }
    assert ps[..|ps|] == ps && |socket.accepted| + |socket.outBuffer| == |Frames(ps)|;
    FlushSome(socket);
    reader := new EReader(socket.accepted);
    reader.ReadToQueue();
    if forall i :: 0 <= i < |ps| ==> Sendable(ps[i]) { DeliveredWhole(ps, socket.accepted, socket.outBuffer); }
  }

  lemma FramesUpTo(ps: seq<seq<Byte>>, i: nat)
    requires i < |ps|
    ensures Frames(ps[..i + 1]) == Frames(ps[..i]) + Frame(ps[i])
    ensures |Frames(ps[..i])| + |Frame(ps[i])| <= |Frames(ps)|
  {
    hide Frame, Frames;
    assert ps[..i + 1] == ps[..i] + [ps[i]] && ps == ps[..i + 1] + ps[i + 1..];
    FramesConcat(ps[..i], [ps[i]]);
    FramesConcat(ps[..i + 1], ps[i + 1..]);
    FramesOne(ps[i]);
  }

  lemma NoFrames()
    ensures Frames([]) == []
  {
  }

  method FlushSome(socket: EClientSocket)
    requires |socket.outBuffer| <= INT_MAX
    modifies socket
    ensures socket.accepted + socket.outBuffer == old(socket.accepted + socket.outBuffer)
    ensures |socket.outBuffer| <= old(|socket.outBuffer|)
  {
    var times: nat := *;
    while times > 0
      invariant socket.accepted + socket.outBuffer == old(socket.accepted + socket.outBuffer)
      invariant |socket.outBuffer| <= old(|socket.outBuffer|)
    {
      var n := socket.SendBufferedData();
      times := times - 1;
    }
  }
}
