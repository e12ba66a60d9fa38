/** Both ends of the connection: the sender with its buffer of unsent bytes, and the reader with its buffer of
    bytes not yet part of a message. The operating system takes and delivers as few bytes as it likes. */
module Wire {
  import opened Basics
  import opened Framing

  const IN_BUF_SIZE := 8192

  function Taken(n: int): nat { if n > 0 then n else 0 }

  class EClientSocket {
    var outBuffer: seq<Byte>
    var lengthErrors: nat           // BAD_LENGTH errors reported
    var accepted: seq<Byte>         // all bytes that the operating system has taken
    var sends: seq<int>             // what each call of ::send has returned

    constructor ()
      ensures outBuffer == [] && accepted == [] && sends == [] && lengthErrors == 0
    {
      outBuffer, accepted, sends, lengthErrors := [], [], [], 0;
    }

    /** ::send takes a part of the bytes, or fails with -1. */
    method SocketSend(data: seq<Byte>) returns (n: int)
      requires |data| <= INT_MAX
      modifies this`accepted, this`sends
      ensures -1 <= n <= |data| && (data == [] ==> n == 0)
      ensures sends == old(sends) + if data == [] then [] else [n]
      ensures accepted == old(accepted) + data[..Taken(n)]
    {
      if data == [] {
        return 0;
      }
      n :| -1 <= n <= |data|;
      accepted, sends := accepted + data[..Taken(n)], sends + [n];
    }

    method CleanupBuffer(processed: int)
      requires processed <= |outBuffer|
      modifies this`outBuffer
      ensures outBuffer == old(outBuffer)[Taken(processed)..]
    {
      if outBuffer == [] || processed <= 0 {
        return;
      }
      if processed == |outBuffer| {
        outBuffer := [];
      } else {
        outBuffer := outBuffer[processed..];
      }
    }

    method SendBufferedData() returns (n: int)
      requires |outBuffer| <= INT_MAX
      modifies this`outBuffer, this`accepted, this`sends
      ensures -1 <= n <= |old(outBuffer)| && sends == old(sends) + if old(outBuffer) == [] then [] else [n]
      ensures accepted == old(accepted) + old(outBuffer)[..Taken(n)] && outBuffer == old(outBuffer)[Taken(n)..]
    {
      if outBuffer == [] {
        return 0;
      }
      n := SocketSend(outBuffer);
      if n <= 0 {
        return;
      }
      CleanupBuffer(n);
    }

    /** The socket takes some of the old bytes, then some of the new ones; the rest stays. */
    method BufferedSend(data: seq<Byte>) returns (n: int)
      requires |outBuffer| + |data| <= INT_MAX
      modifies this`outBuffer, this`accepted, this`sends
      ensures -1 <= n <= |old(outBuffer) + data| && (data == [] ==> n == 0)
      ensures sends == old(sends) + if data == [] then [] else [n]
      ensures accepted == old(accepted) + (old(outBuffer) + data)[..Taken(n)]
      ensures outBuffer == (old(outBuffer) + data)[Taken(n)..]
    {
      if data == [] {
        return 0;
      }
      if outBuffer != [] {
        outBuffer := outBuffer + data;
        n := SendBufferedData();
        return;
      }
      assert outBuffer + data == data;
      n := SocketSend(data);
      if n < |data| {
        outBuffer := outBuffer + data[Taken(n)..];
      }
    }

    /** Writes the length into the header that PrepareBuffer left, unless the message is too long. */
    method EncodeMsgLen(msg: seq<Byte>, offset: nat) returns (m: seq<Byte>)
      requires offset + HEADER_LEN < |msg| <= INT_MAX
      modifies this`lengthErrors
      ensures var p := msg[offset + HEADER_LEN..];
              m == if Sendable(p) then msg[..offset] + Frame(p) else msg
      ensures lengthErrors == old(lengthErrors) + if Sendable(msg[offset + HEADER_LEN..]) then 0 else 1
    {
      var len := |msg| - HEADER_LEN - offset;
      if len > MAX_MSG_LEN {
        lengthErrors := lengthErrors + 1;
        return msg;
      }
      m := msg[..offset] + BigEndian(len) + msg[offset + HEADER_LEN..];
    }

    /** handleSocketError decides, from errno, what a failed send means. */
    method CloseAndSend(msg: seq<Byte>, offset: nat) returns (ok: bool)
      requires offset + HEADER_LEN < |msg| && |outBuffer| + |msg| <= INT_MAX
      modifies this
      ensures var p := msg[offset + HEADER_LEN..];
              accepted + outBuffer == old(accepted + outBuffer) + if Sendable(p) then msg[..offset] + Frame(p) else msg
      ensures lengthErrors == old(lengthErrors) + if Sendable(msg[offset + HEADER_LEN..]) then 0 else 1
      ensures old(accepted) <= accepted
      ensures |sends| == |old(sends)| + 1 && old(sends) <= sends && (sends[|sends| - 1] != -1 ==> ok)
    {
      hide Frame, Sendable;
      var m := EncodeMsgLen(msg, offset);
      ghost var all := outBuffer + m;
      var n := BufferedSend(m);
      assert all == all[..Taken(n)] + all[Taken(n)..];
      ok := true;
      if n == -1 {
        ok := *;
      }
    }

    method PrepareBuffer() returns (buf: seq<Byte>)
      ensures buf == [0, 0, 0, 0]
    {
      buf := [0, 0, 0, 0];
    }

    /** What every request does: an empty header, its fields, then the length and off it goes. */
    method SendMessage(payload: seq<Byte>) returns (ok: bool)
      requires payload != [] && |outBuffer| + HEADER_LEN + |payload| <= INT_MAX
      modifies this
      ensures accepted + outBuffer == old(accepted + outBuffer) + Frame(payload)
      ensures old(accepted) <= accepted
      ensures lengthErrors == old(lengthErrors) + if Sendable(payload) then 0 else 1
      ensures |sends| == |old(sends)| + 1 && old(sends) <= sends && (sends[|sends| - 1] != -1 ==> ok)
    {
      var msg := PrepareBuffer();
      msg := msg + payload;
      assert msg[0 + HEADER_LEN..] == payload && msg[..0] == [];
      ok := CloseAndSend(msg, 0);
    }
  }

  class EReader {
    var buf: seq<Byte>               // m_buf
    var queue: seq<seq<Byte>>        // m_msgQueue
    var wire: seq<Byte>              // all bytes that are still to arrive
    ghost var received: seq<Byte>    // all bytes that have arrived
    ghost var partial: seq<Byte>     // what has been read of the message under way
    ghost var handed: seq<seq<Byte>> // the messages that GetMsg has returned

    constructor (wire: seq<Byte>)
      ensures Valid() && queue == [] && handed == [] && partial == [] && Rest() == wire && received == []
    {
      buf, queue, this.wire, received, partial, handed := [], [], wire, [], [], [];
    }

    /** Every byte that has arrived is in a delivered frame, in the message under way or in the buffer. */
    ghost predicate Valid()
      reads this
    {
      && |buf| <= IN_BUF_SIZE
      && Frames(handed + queue) + partial + buf == received
      && forall i :: 0 <= i < |handed + queue| ==> Sendable((handed + queue)[i])
    }

    ghost function Rest(): seq<Byte>
      reads this
    {
      buf + wire
    }

    /** A receive of at least one byte, and of no more than fit in the buffer. */
    method OnReceive()
      requires Valid() && wire != [] && |buf| < IN_BUF_SIZE
      modifies this`buf, this`wire, this`received
      ensures Valid() && Rest() == old(Rest()) && received + wire == old(received + wire)
      ensures |buf| > old(|buf|) && |wire| < old(|wire|)
    {
      hide Frames;
      var free := IN_BUF_SIZE - |buf|;
      var n :| 1 <= n <= |wire| && n <= free;
      assert wire == wire[..n] + wire[n..];
      received := received + wire[..n];
      buf := buf + wire[..n];
      wire := wire[n..];
    }

    /** The waiting loop of BufferedRead: receives until `want` bytes are there or the buffer is full. */
    method Fill(want: nat) returns (ok: bool)
      requires Valid()
      modifies this`buf, this`wire, this`received
      ensures Valid() && received + wire == old(received + wire) && Rest() == old(Rest())
      ensures if ok then |buf| >= want || |buf| == IN_BUF_SIZE else |buf| < want && wire == []
    {
      hide Frames;
      while |buf| < want && |buf| < IN_BUF_SIZE
        invariant Valid() && received + wire == old(received + wire) && Rest() == old(Rest())
        decreases |wire|
      {
        if wire == [] {
          return false;
        }
        OnReceive();
      }
      return true;
    }

    /** Copies bytes out and shifts the rest of the buffer to its front. */
    method TakeFromBuffer(n: nat) returns (piece: seq<Byte>)
      requires Valid() && n <= |buf|
      modifies this`buf, this`partial
      ensures Valid() && partial == old(partial) + piece && old(Rest()) == piece + Rest() && |piece| == n
    {
      hide Frames;
      assert buf == buf[..n] + buf[n..];
      piece := buf[..n];
      partial := partial + piece;
      buf := buf[n..];
    }

    /** Moves `size` bytes out of the stream, in as many pieces as it takes; it stops when the stream runs dry. */
    method BufferedRead(size: nat) returns (ok: bool, out: seq<Byte>)
      requires Valid()
      modifies this`buf, this`wire, this`received, this`partial
      ensures Valid() && partial == old(partial) + out && received + wire == old(received + wire)
      ensures old(Rest()) == out + Rest()
      ensures ok <==> size <= |old(Rest())|
      ensures ok ==> |out| == size
    {
      hide Frames;
      var left := size;
      ok, out := true, [];
      while left > 0
        invariant 0 <= left <= size && |out| == size - left
        invariant Valid() && partial == old(partial) + out && received + wire == old(received + wire)
        invariant old(Rest()) == out + Rest()
        decreases left
      {
        var filled := Fill(left);
        if !filled {
          assert |old(Rest())| == |out| + |buf|;
          return false, out;
        }
        var n := if IN_BUF_SIZE < left then IN_BUF_SIZE else left;
        var piece := TakeFromBuffer(n);
        out := out + piece;
        left := left - n;
      }
    }

    /** Reads the message at the front of the stream. */
    method ReadSingleMsg() returns (msg: Option<seq<Byte>>)
      requires Valid() && partial == []
      modifies this`buf, this`wire, this`received, this`partial
      ensures Valid() && received + wire == old(received + wire) && msg == FirstFrame(old(Rest()))
      ensures msg.Some? ==> partial == Frame(msg.value) && old(Rest()) == Frame(msg.value) + Rest()
    {
      hide Frames;
      ghost var s := Rest();
      var ok, h := BufferedRead(HEADER_LEN);
      if !ok {
        return None;
      }
      assert s[..HEADER_LEN] == h;
      var size := Int32(h);
      if size <= 0 || size > MAX_MSG_LEN {
        return None;
      }
      var body;
      ok, body := BufferedRead(size);
      if !ok {
        return None;
      }
      assert s[HEADER_LEN..HEADER_LEN + size] == body;
      HeaderRoundTrip(h);
      return Some(body);
    }

    method PutMessageToQueue() returns (ok: bool)
      requires Valid() && partial == []
      modifies this`buf, this`wire, this`received, this`partial, this`queue
      ensures Valid() && received + wire == old(received + wire)
      ensures ok <==> FirstFrame(old(Rest())).Some?
      ensures if ok then
                partial == [] && queue == old(queue) + [FirstFrame(old(Rest())).value]
                && old(Rest()) == Frame(FirstFrame(old(Rest())).value) + Rest()
              else queue == old(queue)
    {
      hide FirstFrame, Frame;
      var msg := ReadSingleMsg();
      if msg == None {
        return false;
      }
      Enqueue(msg.value);
      return true;
    }

    method Enqueue(msg: seq<Byte>)
      requires Valid() && partial == Frame(msg) && Sendable(msg)
      modifies this`queue, this`partial
      ensures Valid() && partial == [] && queue == old(queue) + [msg]
    {
      hide Frame;
      FramesConcat(handed + queue, [msg]);
      FramesOne(msg);
      hide Frames;
      assert handed + (queue + [msg]) == handed + queue + [msg];
      queue, partial := queue + [msg], [];
    }

    /** The reading thread: every payload of the stream is queued, in order, whatever the pieces it came in. */
    method ReadToQueue()
      requires Valid() && partial == []
      modifies this`buf, this`wire, this`received, this`partial, this`queue
      ensures Valid() && received + wire == old(received + wire)
      ensures queue == old(queue) + Payloads(old(Rest()))
    {
      hide Frames, Frame, FirstFrame;
      var ok := true;
      while ok
        invariant Valid() && received + wire == old(received + wire)
        invariant if ok then partial == [] && queue + Payloads(Rest()) == old(queue) + Payloads(old(Rest()))
                  else queue == old(queue) + Payloads(old(Rest()))
        decreases ok, |Rest()|
      {
        ghost var s := Rest();
        ok := PutMessageToQueue();
        if ok {
          assert s[HEADER_LEN + |FirstFrame(s).value|..] == Rest();
        }
      }
    }

    method GetMsg() returns (msg: Option<seq<Byte>>)
      requires Valid()
      modifies this`queue, this`handed
      ensures Valid() && handed + queue == old(handed + queue)
      ensures if old(queue) == [] then msg == None && handed == old(handed)
              else msg == Some(old(queue)[0]) && handed == old(handed) + [old(queue)[0]]
    {
      if queue == [] {
        return None;
      }
      assert handed + queue == handed + [queue[0]] + queue[1..];
      msg := Some(queue[0]);
      handed, queue := handed + [queue[0]], queue[1..];
    }
  }

  /** What the reader has delivered is, at any time, the first of the payloads that the sender was given:
      whatever has arrived is a part of what the socket accepted, and that is a part of what was sent. */
  lemma DeliveredInOrder(ps: seq<seq<Byte>>, delivered: seq<seq<Byte>>, partial: seq<Byte>, buf: seq<Byte>,
                         received: seq<Byte>, accepted: seq<Byte>, outBuffer: seq<Byte>)
    requires forall i :: 0 <= i < |ps| ==> ps[i] != []
    requires accepted + outBuffer == Frames(ps) && received <= accepted
    requires Frames(delivered) + partial + buf == received && forall i :: 0 <= i < |delivered| ==> Sendable(delivered[i])
    ensures delivered <= ps
  {
    hide Frames;
    assert received <= Frames(ps);
    assert Frames(delivered) <= Frames(ps);
    FramesInjective(delivered, ps);
  }

  /** Once all accepted bytes have arrived, the messages that the socket accepted whole have been delivered;
      with nothing left to send that is all of them. */
  lemma DeliveredWhole(ps: seq<seq<Byte>>, accepted: seq<Byte>, outBuffer: seq<Byte>)
    requires (forall i :: 0 <= i < |ps| ==> Sendable(ps[i])) && accepted + outBuffer == Frames(ps)
    ensures Payloads(accepted) == ps[..Whole(ps, |accepted|)]
    ensures outBuffer == [] ==> Payloads(accepted) == ps
  {
    hide Frames, Payloads;
    assert Frames(ps)[..|accepted|] == accepted;
    CutStream(ps, |accepted|);
    if outBuffer == [] {
      AllWhole(ps);
    }
  }
}
