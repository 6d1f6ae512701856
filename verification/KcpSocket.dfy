/** `KcpSocket` of `src/skcp.rs`: the steps of `SocketModel`, performed in place, and the FEC entry point. */
module KcpSockets {
  import opened Base
  import opened FecFormat
  import opened ErasureCode
  import opened FecReception
  import opened FecDecoding
  import opened FecRecovery
  import opened FecWire
  import opened KcpContract
  import opened SocketModel

  /** The packets that `input_fec` feeds one after another; it stops at the first that fails. */
  function FeedAll(s: Socket, packets: seq<Bytes>, wire: nat -> FeedEnv, at: nat): (Socket, Result<bool, SocketError>)
    decreases packets
  {
    if packets == [] then (s, Ok(false)) else
    var (fed, r) := FeedStep(s, packets[0], wire(at));
    if r.Err? then (fed, r) else
    var (end, rest) := FeedAll(fed, packets[1..], wire, at + 1);
    (end, if rest.Ok? then Ok(r.value || rest.value) else rest)
  }

  /** Without a failure, all the packets have gone into the engine, in order. */
  lemma {:induction false} FeedAllFeeds(s: Socket, packets: seq<Bytes>, wire: nat -> FeedEnv, at: nat)
    requires FeedAll(s, packets, wire, at).1.Ok?
    ensures FeedAll(s, packets, wire, at).0.kcp.fed == s.kcp.fed + packets
    decreases packets
  {
    if packets != [] {
      var fed := FeedStep(s, packets[0], wire(at)).0;
      FeedAllFeeds(fed, packets[1..], wire, at + 1);
    }
  }

  /** Feeding two lists is feeding the first and, if that went well, the second from where it ended. */
  lemma {:induction false} FeedAllConcat(s: Socket, a: seq<Bytes>, b: seq<Bytes>, wire: nat -> FeedEnv, at: nat)
    ensures FeedAll(s, a + b, wire, at) ==
      var (mid, first) := FeedAll(s, a, wire, at);
      if first.Err? then (mid, first) else
      var (end, second) := FeedAll(mid, b, wire, at + |a|);
      (end, if second.Ok? then Ok(first.value || second.value) else second)
    decreases a
  {
    if a == [] {
      assert a + b == b;
    } else {
      assert (a + b)[1..] == a[1..] + b;
      FeedAllConcat(FeedStep(s, a[0], wire(at)).0, a[1..], b, wire, at + 1);
    }
  }

  lemma FeedAllOne(s: Socket, packet: Bytes, wire: nat -> FeedEnv, at: nat)
    ensures FeedAll(s, [packet], wire, at) == FeedStep(s, packet, wire(at))
  {
    assert [packet][1..] == [];
  }

  /**
   * `input_fec`: a data packet's own payload first, then what the decoder recovers, up to the first failure. The
   * decoder's record stays as it is when the packet's own payload fails, as the decoder then never sees the packet.
   */
  ghost function FecStep(codec: Codec, log: seq<Arrival>, s: Socket, buf: Bytes, wire: nat -> FeedEnv)
    : (Socket, Result<bool, SocketError>, seq<Arrival>)
    requires codec.shape.Valid() && AllFit(codec.shape, log) && KeepsAllPlaces(codec)
  {
    var (mid, first) := FeedAll(s, DirectPayload(buf), wire, 0);
    if first.Err? then (mid, first, log)
    else if Answer(codec, log, buf).Err? then (mid, Err(FecFailed), log + Recorded(codec.shape, buf))
    else
      var (end, all) := FeedAll(s, Handed(codec, log, buf), wire, 0);
      (end, all, log + Recorded(codec.shape, buf))
  }

  /** `input` with a decoder: marked packets are FEC packets, all others go to the engine as they are. */
  ghost function InputStep(codec: Codec, log: seq<Arrival>, s: Socket, buf: Bytes, wire: nat -> FeedEnv)
    : (Socket, Result<bool, SocketError>, seq<Arrival>)
    requires codec.shape.Valid() && AllFit(codec.shape, log) && KeepsAllPlaces(codec)
  {
    if MarkedFec(buf) then FecStep(codec, log, s, buf, wire) else
    var (fed, r) := FeedStep(s, buf, wire(0));
    (fed, r, log)
  }

  /** Without a failure, the engine has been fed the packet's own payload and everything recovered, in this order. */
  lemma FecStepFeeds(codec: Codec, log: seq<Arrival>, s: Socket, buf: Bytes, wire: nat -> FeedEnv)
    requires codec.shape.Valid() && AllFit(codec.shape, log) && KeepsAllPlaces(codec)
    requires FecStep(codec, log, s, buf, wire).1.Ok?
    ensures FecStep(codec, log, s, buf, wire).0.kcp.fed == s.kcp.fed + Handed(codec, log, buf)
  {
    FeedAllFeeds(s, Handed(codec, log, buf), wire, 0);
  }

  /** The recovered payloads are fed from where the packet's own payload left the socket. */
  lemma FecStepContinues(codec: Codec, log: seq<Arrival>, s: Socket, buf: Bytes, wire: nat -> FeedEnv)
    requires codec.shape.Valid() && AllFit(codec.shape, log) && KeepsAllPlaces(codec)
    requires FeedAll(s, DirectPayload(buf), wire, 0).1.Ok? && Answer(codec, log, buf).Ok?
    ensures var (mid, first) := FeedAll(s, DirectPayload(buf), wire, 0);
      var (end, second) := FeedAll(mid, Answer(codec, log, buf).value, wire, |DirectPayload(buf)|);
      FecStep(codec, log, s, buf, wire) ==
        (end, if second.Ok? then Ok(first.value || second.value) else second, log + Recorded(codec.shape, buf))
  {
    FeedAllConcat(s, DirectPayload(buf), Answer(codec, log, buf).value, wire, 0);
  }

  /** Feeding a list reports success exactly if nothing failed, and whether it woke anyone. */
  lemma {:induction false} FeedAllReports(s: Socket, packets: seq<Bytes>, wire: nat -> FeedEnv, at: nat)
    ensures var (end, r) := FeedAll(s, packets, wire, at);
      && |end.woken| >= |s.woken| && (r.Ok? ==> r.value == (|end.woken| > |s.woken|))
    decreases packets
  {
    if packets != [] {
      var fed := FeedStep(s, packets[0], wire(at)).0;
      FeedAllReports(fed, packets[1..], wire, at + 1);
    }
  }

  /** What a FEC packet reports: the first failure, be it of its own payload, the decoder or a recovered payload. */
  lemma FecStepReports(codec: Codec, log: seq<Arrival>, s: Socket, buf: Bytes, wire: nat -> FeedEnv)
    requires codec.shape.Valid() && AllFit(codec.shape, log) && KeepsAllPlaces(codec)
    ensures var (mid, first) := FeedAll(s, DirectPayload(buf), wire, 0);
      var (end, r, record) := FecStep(codec, log, s, buf, wire);
      && (first.Err? ==> r == first)
      && (first.Ok? && Answer(codec, log, buf).Err? ==> r == Err(FecFailed) && end == mid)
      && (first.Ok? ==> record == log + Recorded(codec.shape, buf))
      && (r.Ok? ==> r.value == (|end.woken| > |s.woken|))
  {
    FeedAllReports(s, Handed(codec, log, buf), wire, 0);
  }

  class KcpSocket {
    var kcp: Kcp
    var lastUpdateMs: nat
    var sentFirst: bool
    var pendingSender: Option<Waker>
    var pendingReceiver: Option<Waker>
    var closed: bool
    const limits: Limits
    const fecDecoder: FecDecoder?
    ghost var woken: seq<Waker>

    ghost function State(): Socket
      reads this
    {
      Socket(kcp, lastUpdateMs, sentFirst, pendingSender, pendingReceiver, closed, woken, limits)
    }

    constructor (kcp: Kcp, updateIntervalMs: nat, flushWrite: bool, flushAckInput: bool, allowRecvEmptyPacket: bool,
                 fecDecoder: FecDecoder?, now: nat)
      requires kcp.mss > 0 && kcp.waitSnd == 0 && kcp.queued == [] && kcp.ready == []
      ensures Fresh(State()) && Inv(State()) && this.kcp == kcp && this.fecDecoder == fecDecoder
      ensures lastUpdateMs == now && woken == []
      ensures limits ==
        Limits(updateIntervalMs, flushWrite, flushAckInput, kcp.mss, 127 * kcp.mss, allowRecvEmptyPacket)
    {
      this.kcp, lastUpdateMs, this.fecDecoder := kcp, now, fecDecoder;
      sentFirst, pendingSender, pendingReceiver, closed, woken := false, None, None, false, [];
      limits := Limits(updateIntervalMs, flushWrite, flushAckInput, kcp.mss, kcp.mss * MAX_SEND_SEGMENTS,
                       allowRecvEmptyPacket);
    }

    method WakeUp(waker: Waker)
      modifies this`woken
      ensures woken == old(woken) + [waker]
    {
      woken := woken + [waker];
    }

    method PollSend(e: SendEnv, buf: Bytes) returns (r: Poll<Result<nat, SocketError>>)
      requires Inv(State())
      modifies this
      ensures (State(), r) == SendStep(old(State()), buf, e) && Inv(State())
    {
      SendKeepsInv(State(), buf, e);
      if closed {
        return Ready(Err(BrokenPipe));
      }
      if sentFirst && (kcp.waitSnd >= kcp.sndWnd || kcp.waitSnd >= kcp.rmtWnd || kcp.waitingConv) {
        var displaced := pendingSender;
        pendingSender := Some(e.waker);
        if displaced.Some? && displaced.value != e.waker {
          WakeUp(displaced.value);
        }
        return Pending;
      }
      var maxSendLen := if !sentFirst && kcp.waitingConv then limits.firstSendChunkLen else limits.maxSendChunkLen;
      var chunk := if |buf| > maxSendLen then buf[..maxSendLen] else buf;
      var sent := SendChunk(e, chunk);
      return Ready(sent);
    }

    /** The sending part of `poll_send`. */
    method SendChunk(e: SendEnv, chunk: Bytes) returns (r: Result<nat, SocketError>)
      requires kcp.mss > 0
      modifies this
      ensures (State(), r) == Transmit(old(State()), chunk, e)
    {
      match Send(kcp, chunk, e.segments) {
        case Err(error) =>
          return Err(KcpFailed(error));
        case Ok(after) =>
          kcp := after;
      }
      sentFirst := true;
      if kcp.waitSnd >= kcp.sndWnd || kcp.waitSnd >= kcp.rmtWnd {
        if !e.windowFlush {
          return Err(KcpFailed(OutputClosed));
        }
      }
      lastUpdateMs := e.now;
      if limits.flushWrite && !e.writeFlush {
        return Err(KcpFailed(OutputClosed));
      }
      return Ok(|chunk|);
    }

    method PollRecv(e: RecvEnv, cap: nat) returns (r: Poll<Result<Bytes, SocketError>>)
      modifies this
      ensures (State(), r) == RecvStep(old(State()), cap, e)
    {
      if closed {
        return Ready(Ok([]));
      }
      match Recv(kcp, cap) {
        case Err(error) =>
          if error != RecvQueueEmpty {
            return Ready(Err(KcpFailed(error)));
          }
        case Ok(message) =>
          kcp := AfterRecv(kcp, e.uncovered);
          if |message| != 0 || limits.allowRecvEmptyPacket {
            lastUpdateMs := e.now;
            return Ready(Ok(message));
          }
      }
      var displaced := pendingReceiver;
      pendingReceiver := Some(e.waker);
      if displaced.Some? && displaced.value != e.waker {
        WakeUp(displaced.value);
      }
      return Pending;
    }

    method TryWakePendingSender() returns (waked: bool)
      modifies this
      ensures State() == WakeSender(old(State())) && waked == (woken != old(woken))
    {
      if pendingSender.Some? && kcp.waitSnd < kcp.sndWnd && kcp.waitSnd < kcp.rmtWnd && !kcp.waitingConv {
        WakeUp(pendingSender.value);
        pendingSender := None;
        return true;
      }
      return false;
    }

    method TryWakePendingReceiver() returns (waked: bool)
      modifies this
      ensures State() == WakeReceiver(old(State())) && waked == (woken != old(woken))
    {
      if pendingReceiver.Some? {
        var peek := PeekSize(kcp);
        if peek.Some? && (limits.allowRecvEmptyPacket || peek.value > 0) {
          WakeUp(pendingReceiver.value);
          pendingReceiver := None;
          return true;
        }
      }
      return false;
    }

    method InputKcp(packet: Bytes, e: FeedEnv) returns (r: Result<bool, SocketError>)
      requires Inv(State())
      modifies this
      ensures (State(), r) == FeedStep(old(State()), packet, e) && Inv(State())
    {
      FeedKeepsInv(State(), packet, e);
      kcp := Input(kcp, packet, e.effect);
      match e.effect.outcome {
        case WrongConv => return Ok(false);
        case Refused(error) => return Err(KcpFailed(error));
        case Taken =>
      }
      lastUpdateMs := e.now;
      if limits.flushAckInput && !e.ackFlush {
        return Err(KcpFailed(OutputClosed));
      }
      var sender := TryWakePendingSender();
      var receiver := TryWakePendingReceiver();
      return Ok(sender || receiver);
    }

    ghost predicate DecoderReady()
      reads this, fecDecoder
    {
      fecDecoder != null && fecDecoder.Valid()
    }

    method FeedEach(packets: seq<Bytes>, wire: nat -> FeedEnv, at: nat) returns (r: Result<bool, SocketError>)
      requires Inv(State())
      modifies this
      ensures (State(), r) == FeedAll(old(State()), packets, wire, at) && Inv(State())
    {
      var waked := false;
      for i := 0 to |packets|
        invariant Inv(State())
        invariant FeedAll(old(State()), packets[..i], wire, at) == (State(), Ok(waked))
      {
        FeedAllConcat(old(State()), packets[..i], packets[i..], wire, at);
        FeedAllConcat(old(State()), packets[..i], [packets[i]], wire, at);
        FeedAllOne(State(), packets[i], wire, at + i);
        assert packets[..i] + packets[i..] == packets && packets[..i] + [packets[i]] == packets[..i + 1];
        var one := InputKcp(packets[i], wire(at + i));
        match one {
          case Err(error) => return Err(error);
          case Ok(w) => waked := waked || w;
        }
      }
      assert packets[..|packets|] == packets;
      return Ok(waked);
    }

    method InputFec(buf: Bytes, wire: nat -> FeedEnv) returns (r: Result<bool, SocketError>)
      requires Inv(State()) && DecoderReady()
      modifies this, fecDecoder
      ensures Inv(State()) && DecoderReady()
      ensures (State(), r, fecDecoder.log) == FecStep(fecDecoder.codec, old(fecDecoder.log), old(State()), buf, wire)
    {
      if FeedAll(State(), DirectPayload(buf), wire, 0).1.Ok? && Answer(fecDecoder.codec, fecDecoder.log, buf).Ok? {
        FecStepContinues(fecDecoder.codec, fecDecoder.log, State(), buf, wire);
      }
      var direct := FeedEach(DirectPayload(buf), wire, 0);
      match direct {
        case Err(error) => return Err(error);
        case Ok(first) =>
          var answer := fecDecoder.Decode(buf);
          match answer {
            case Err(_) => return Err(FecFailed);
            case Ok(recovered) =>
              var rest := FeedEach(recovered, wire, |DirectPayload(buf)|);
              match rest {
                case Err(error) => return Err(error);
                case Ok(second) => return Ok(first || second);
              }
          }
      }
    }

    /** `input`: FEC packets go through the decoder when there is one, everything else straight to the engine. */
    method InputPacket(buf: Bytes, wire: nat -> FeedEnv) returns (r: Result<bool, SocketError>)
      requires Inv(State()) && (fecDecoder != null ==> fecDecoder.Valid())
      modifies this, fecDecoder
      ensures Inv(State()) && (fecDecoder != null ==> fecDecoder.Valid())
      ensures fecDecoder == null ==> (State(), r) == FeedStep(old(State()), buf, wire(0))
      ensures fecDecoder != null ==>
        (State(), r, fecDecoder.log) == InputStep(fecDecoder.codec, old(fecDecoder.log), old(State()), buf, wire)
    {
      FlagBytes(buf);
      if fecDecoder != null && IsFecPacket(buf) {
        r := InputFec(buf, wire);
      } else {
        r := InputKcp(buf, wire(0));
      }
    }

    method Flush(now: nat, ok: bool) returns (r: Result<(), SocketError>)
      modifies this
      ensures (State(), r) == FlushStep(old(State()), now, ok)
    {
      if !ok {
        return Err(KcpFailed(OutputClosed));
      }
      lastUpdateMs := now;
      return Ok(());
    }

    method UpdateAt(now: nat, e: UpdateEffect) returns (r: Result<nat, SocketError>)
      requires Inv(State())
      modifies this
      ensures (State(), r) == UpdateStep(old(State()), now, e) && Inv(State())
    {
      StepKeepsInv(State(), Tick(now, e));
      kcp := Update(kcp, e);
      match e.result {
        case Err(error) =>
          return Err(KcpFailed(error));
        case Ok(check) =>
          var next := if kcp.waitSnd == 0 then limits.updateIntervalMs else check;
          var _ := TryWakePendingSender();
          return Ok(next);
      }
    }

    method CloseSocket()
      modifies this
      ensures State() == CloseStep(old(State()))
    {
      closed := true;
      if pendingSender.Some? {
        WakeUp(pendingSender.value);
        pendingSender := None;
      }
      if pendingReceiver.Some? {
        WakeUp(pendingReceiver.value);
        pendingReceiver := None;
      }
    }

    predicate CanClose()
      reads this
    {
      kcp.waitSnd == 0
    }

    /** Any one step; the class performs exactly the steps of the model. */
    method Perform(ev: Event)
      requires Inv(State())
      modifies this
      ensures State() == Step(old(State()), ev) && Inv(State())
    {
      StepKeepsInv(State(), ev);
      match ev {
        case PollSend(buf, e) => var _ := PollSend(e, buf);
        case PollRecv(cap, e) => var _ := PollRecv(e, cap);
        case Feed(packet, e) => var _ := InputKcp(packet, e);
        case Tick(now, e) => var _ := UpdateAt(now, e);
        case Flush(now, ok) => var _ := Flush(now, ok);
        case SetConv(conv) => kcp := kcp.(conv := conv);
        case Close => CloseSocket();
      }
    }
  }
}
