/** `KcpStream` of `src/stream.rs`: the send loop and the re-chunking receive loop, in place. */
module KcpStreams {
  import opened Base
  import opened KcpContract
  import opened SocketModel
  import opened KcpSockets
  import opened StreamModel

  class KcpStream {
    const socket: KcpSocket
    var recvBuffer: Bytes
    var recvBufferPos: nat
    var recvBufferCap: nat

    ghost predicate Valid()
      reads this, socket
    {
      recvBufferPos <= recvBufferCap <= |recvBuffer| && Inv(socket.State())
    }

    ghost function View(): Reader
      requires Valid()
      reads this, socket
    {
      Reader(recvBuffer[recvBufferPos..recvBufferCap], socket.State())
    }

    constructor (socket: KcpSocket)
      requires Inv(socket.State())
      ensures Valid() && this.socket == socket && View() == Reader([], socket.State())
    {
      this.socket := socket;
      recvBuffer, recvBufferPos, recvBufferCap := [], 0, 0;
    }

    method PollSend(e: SendEnv, buf: Bytes) returns (r: Poll<Result<nat, SocketError>>)
      requires Valid()
      modifies socket
      ensures Valid() && (socket.State(), r) == SendStep(old(socket.State()), buf, e)
    {
      r := socket.PollSend(e, buf);
    }

    /** The loop of `send`, polled along `script`. */
    method Send(buf: Bytes, script: seq<Attempt>) returns (outcome: SendOutcome)
      requires Valid() && Playable(script)
      modifies socket
      ensures Valid() && (socket.State(), outcome) == SendRun(old(socket.State()), buf, 0, 0, script)
      ensures Accounts(old(socket.kcp.queued), socket.kcp.queued, outcome, buf, 0, 0, |script|)
    {
      SendAccounts(socket.State(), buf, 0, 0, script);
      outcome := SendLoop(buf, script, SendRun(socket.State(), buf, 0, 0, script));
    }

    method SendLoop(buf: Bytes, script: seq<Attempt>, ghost end: (Socket, SendOutcome)) returns (outcome: SendOutcome)
      requires Valid() && Ahead(end, socket.State(), buf, 0, 0, script)
      modifies socket
      ensures Valid() && (socket.State(), outcome) == end
    {
      ghost var rest := script;
      var sent, turn, waits := 0, 0, 0;
      while turn < |script|
        invariant turn <= |script| && rest == script[turn..] && (buf == [] || sent < |buf|)
        invariant Valid() && Ahead(end, socket.State(), buf, sent, waits, rest)
      {
        var answer := SendTurn(buf, sent, script[turn], waits, rest, end);
        turn, rest := turn + 1, rest[1..];
        match answer {
          case Pending => waits := waits + 1;
          case Ready(Err(error)) => return Failed(error);
          case Ready(Ok(n)) =>
            sent := sent + n;
            if sent == |buf| {
              return Done(sent);
            }
        }
      }
      return StillPending(sent, waits);
    }

    /** One poll of the socket and, if `send` is not done with it, what happens to the socket until the next one. */
    method SendTurn(buf: Bytes, sent: nat, attempt: Attempt, ghost waits: nat, ghost rest: seq<Attempt>,
                    ghost end: (Socket, SendOutcome)) returns (answer: Poll<Result<nat, SocketError>>)
      requires Valid() && (buf == [] || sent < |buf|) && rest != [] && rest[0] == attempt
      requires Ahead(end, socket.State(), buf, sent, waits, rest)
      modifies socket
      ensures Valid()
      ensures AfterTurn(end, socket.State(), answer, buf, sent, waits, rest[1..])
    {
      ghost var before := socket.State();
      answer := PollSend(attempt.send, buf[sent..]);
      ghost var polled := socket.State();
      if GoesOn(answer, buf, sent) {
        Meanwhile(attempt.meanwhile);
      }
      TurnLeads(end, before, polled, answer, buf, sent, waits, rest);
    }

    /** Everything that happens to the socket while the future does not hold its lock. */
    method Meanwhile(events: seq<Event>)
      requires Valid()
      modifies socket
      ensures Valid() && socket.State() == Run(old(socket.State()), events)
    {
      for i := 0 to |events|
        invariant Valid()
        invariant Run(old(socket.State()), events) == Run(socket.State(), events[i..])
      {
        assert events[i..][0] == events[i] && events[i..][1..] == events[i + 1..];
        socket.Perform(events[i]);
      }
      assert events[|events|..] == [];
    }

    /** The outcome of a read that `answer` describes: the bytes are at the front of `buf`, the rest is untouched. */
    ghost predicate Wrote(answer: Poll<Result<Bytes, SocketError>>, before: Bytes, after: Bytes,
                          r: Poll<Result<nat, SocketError>>)
    {
      var bytes := Returned(answer);
      |bytes| <= |before| && after == bytes + before[|bytes|..] &&
      match answer
      case Pending => r == Pending
      case Ready(Ok(_)) => r == Ready(Ok(|bytes|))
      case Ready(Err(error)) => r == Ready(Err(error))
    }

    /**
     * Reads into `buf`: the remainder first, else the next message, directly when it fits and through the buffer when
     * it does not. Both ways amount to `ReadStep`; only the bytes reported are written.
     */
    method PollRecv(e: RecvEnv, buf: array<byte>) returns (r: Poll<Result<nat, SocketError>>)
      requires Valid()
      modifies this, socket, buf
      ensures Valid() && View() == ReadStep(old(View()), buf.Length, e).0
      ensures Wrote(ReadStep(old(View()), buf.Length, e).1, old(buf[..]), buf[..], r)
    {
      ReadTakesPrefix(View(), buf.Length, e);
      while true
        invariant Valid() && buf[..] == old(buf[..])
        invariant ReadStep(View(), buf.Length, e) == ReadStep(old(View()), buf.Length, e)
        decreases if recvBufferPos < recvBufferCap then 0 else 1
      {
        if recvBufferPos < recvBufferCap {
          r := TakeBuffered(buf);
          return;
        }
        var peek := PeekSize(socket.kcp);
        var peekSize := if peek.Some? then peek.value else 0;

        if peekSize > 0 && peekSize <= buf.Length {
          r := ReadDirect(e, buf);
          if r != Ready(Err(KcpFailed(UserBufTooSmall))) {
            return;
          }
        }
        var stop := Refill(e, peekSize, buf.Length);
        if stop.Some? {
          assert buf[..] == [] + buf[..];
          return stop.value;
        }
      }
    }

    /** The part of the loop that serves buffered bytes. */
    method TakeBuffered(buf: array<byte>) returns (r: Poll<Result<nat, SocketError>>)
      requires Valid() && recvBufferPos < recvBufferCap
      modifies this`recvBufferPos, buf
      ensures Valid()
      ensures var residual := old(recvBuffer[recvBufferPos..recvBufferCap]);
        var n := Min(|residual|, buf.Length);
        && r == Ready(Ok(n))
        && recvBuffer[recvBufferPos..recvBufferCap] == residual[n..]
        && buf[..] == residual[..n] + old(buf[..])[n..]
    {
      ghost var residual, before := recvBuffer[recvBufferPos..recvBufferCap], buf[..];
      var remaining := recvBufferCap - recvBufferPos;
      var copyLength := Min(remaining, buf.Length);
      forall i | 0 <= i < copyLength {
        buf[i] := recvBuffer[recvBufferPos + i];
      }
      assert buf[..copyLength] == residual[..copyLength] && buf[copyLength..] == before[copyLength..];
      recvBufferPos := recvBufferPos + copyLength;
      assert recvBuffer[recvBufferPos..recvBufferCap] == residual[copyLength..];
      return Ready(Ok(copyLength));
    }

    /** The next message fits the caller's buffer. */
    method ReadDirect(e: RecvEnv, buf: array<byte>) returns (r: Poll<Result<nat, SocketError>>)
      requires Valid() && recvBufferPos == recvBufferCap
      requires PeekSize(socket.kcp).Some? && 0 < PeekSize(socket.kcp).value <= buf.Length
      modifies socket, buf
      ensures Valid() && View() == ReadStep(old(View()), buf.Length, e).0
      ensures Wrote(ReadStep(old(View()), buf.Length, e).1, old(buf[..]), buf[..], r)
      ensures r != Ready(Err(KcpFailed(UserBufTooSmall)))
    {
      ghost var original := buf[..];
      StepKeepsInv(socket.State(), Event.PollRecv(buf.Length, e));
      var direct := socket.PollRecv(e, buf.Length);
      match direct {
        case Pending =>
          assert false;
          return Pending;
        case Ready(Err(error)) =>
          assert false;
          return Ready(Err(error));
        case Ready(Ok(message)) =>
          forall i | 0 <= i < |message| {
            buf[i] := message[i];
          }
          assert buf[..] == message + original[|message|..];
          return Ready(Ok(|message|));
      }
    }

    /** Reads the next message into the stream's own buffer; `Some` ends the read, `None` leaves bytes to serve. */
    method Refill(e: RecvEnv, requiredSize: nat, ghost cap: nat)
        returns (stop: Option<Poll<Result<nat, SocketError>>>)
      requires Valid() && recvBufferPos == recvBufferCap
      requires requiredSize == if PeekSize(socket.kcp).Some? then PeekSize(socket.kcp).value else 0
      requires requiredSize == 0 || cap < requiredSize
      modifies this, socket
      ensures Valid()
      ensures stop.None? ==>
        && recvBufferPos < recvBufferCap
        && ReadStep(View(), cap, e) == ReadStep(old(View()), cap, e)
      ensures stop.Some? ==>
        && View() == ReadStep(old(View()), cap, e).0
        && Returned(ReadStep(old(View()), cap, e).1) == []
        && Wrote(ReadStep(old(View()), cap, e).1, [], [], stop.value)
    {
      StepKeepsInv(socket.State(), Event.PollRecv(Max(|recvBuffer|, requiredSize), e));
      if |recvBuffer| < requiredSize {
        recvBuffer := Resize(recvBuffer, requiredSize);
      }
      var buffered := socket.PollRecv(e, |recvBuffer|);
      match buffered {
        case Pending => return Some(Pending);
        case Ready(Err(error)) =>
          assert false;
          return Some(Ready(Err(error)));
        case Ready(Ok(message)) =>
          if |message| == 0 {
            return Some(Ready(Ok(0)));
          }
          recvBuffer := message + recvBuffer[|message|..];
          recvBufferPos, recvBufferCap := 0, |message|;
          assert recvBuffer[0..|message|] == message;
          return None;
      }
    }
  }
}
