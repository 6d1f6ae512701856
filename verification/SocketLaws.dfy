/** What each step of a socket means to its callers, in terms of the engine's counters and the socket's fields only. */
module SocketLaws {
  import opened Base
  import opened KcpContract
  import opened SocketModel

  /** No window has room, or the conversation id is still awaited. */
  predicate MustWait(s: Socket) {
    s.kcp.waitSnd >= s.kcp.sndWnd || s.kcp.waitSnd >= s.kcp.rmtWnd || s.kcp.waitingConv
  }

  /** Putting waker `w` where `slot` was wakes what it displaces, unless that is the same task. */
  ghost predicate Displaced(slot: Option<Waker>, w: Waker, before: seq<Waker>, after: seq<Waker>) {
    after == if slot == None || slot == Some(w) then before else before + [slot.value]
  }

  /**
   * A send waits exactly if the first message has gone and there is no room or no conversation id. It then leaves its
   * waker in the sender's slot and touches nothing else.
   */
  lemma SendWaits(s: Socket, buf: Bytes, e: SendEnv)
    requires s.kcp.mss > 0
    ensures var (after, answer) := SendStep(s, buf, e);
      && (answer.Pending? <==> !s.closed && s.sentFirst && MustWait(s))
      && (answer.Pending? ==>
            && after.pendingSender == Some(e.waker) && Displaced(s.pendingSender, e.waker, s.woken, after.woken)
            && after == s.(pendingSender := after.pendingSender, woken := after.woken))
  {}

  /** A send on a closed socket fails with a broken pipe and changes nothing. */
  lemma SendOnClosed(s: Socket, buf: Bytes, e: SendEnv)
    requires s.kcp.mss > 0 && s.closed
    ensures SendStep(s, buf, e) == (s, Ready(Err(BrokenPipe)))
  {}

  /**
   * Any other send takes as much of the buffer as one message may hold: a single segment while the first message is
   * still to ask for the conversation id, 127 segments otherwise. It reports success, and counts as activity, unless a
   * flush it needs fails: one if the windows are full afterwards, one if every write is to be flushed.
   */
  lemma SendTakes(s: Socket, buf: Bytes, e: SendEnv)
    requires Inv(s) && !s.closed && !(s.sentFirst && MustWait(s))
    ensures var (after, answer) := SendStep(s, buf, e);
      var most := if !s.sentFirst && s.kcp.waitingConv then s.kcp.mss else 127 * s.kcp.mss;
      var n := Min(|buf|, most);
      && after.kcp.queued == s.kcp.queued + buf[..n] && after.sentFirst
      && after.pendingSender == s.pendingSender && after.woken == s.woken && !after.closed
      && var full := after.kcp.waitSnd >= after.kcp.sndWnd || after.kcp.waitSnd >= after.kcp.rmtWnd;
         && answer == Ready(if (full && !e.windowFlush) || (s.limits.flushWrite && !e.writeFlush)
                            then Err(KcpFailed(OutputClosed)) else Ok(n))
         && after.lastUpdateMs == if full && !e.windowFlush then s.lastUpdateMs else e.now
  {
    ChunkAccepted(s, buf, e.segments);
    assert Chunk(s, buf) == buf[..|Chunk(s, buf)|];
  }

  /** No message is there to hand out, or only an empty one that is not to be handed out. */
  predicate NothingForReceiver(s: Socket) {
    s.kcp.ready == [] || (s.kcp.ready[0] == [] && !s.limits.allowRecvEmptyPacket)
  }

  /** A receive waits exactly if the socket is open and has nothing to hand out, and leaves its waker in the slot. */
  lemma ReceiveWaits(s: Socket, cap: nat, e: RecvEnv)
    ensures var (after, answer) := RecvStep(s, cap, e);
      && (answer.Pending? <==> !s.closed && NothingForReceiver(s))
      && (answer.Pending? ==>
            && after.pendingReceiver == Some(e.waker) && Displaced(s.pendingReceiver, e.waker, s.woken, after.woken)
            && after.pendingSender == s.pendingSender && after.lastUpdateMs == s.lastUpdateMs
            && after.kcp.ready == if s.kcp.ready == [] then [] else s.kcp.ready[1..] + e.uncovered)
  {}

  /** Otherwise it ends at once: a closed socket gives nothing, an open one the next message whole if it fits. */
  lemma ReceiveTakes(s: Socket, cap: nat, e: RecvEnv)
    requires s.closed || !NothingForReceiver(s)
    ensures var (after, answer) := RecvStep(s, cap, e);
      if s.closed then after == s && answer == Ready(Ok([]))
      else if |s.kcp.ready[0]| > cap then after == s && answer == Ready(Err(KcpFailed(UserBufTooSmall)))
      else
        && answer == Ready(Ok(s.kcp.ready[0])) && after.kcp.ready == s.kcp.ready[1..] + e.uncovered
        && after == s.(kcp := after.kcp, lastUpdateMs := e.now)
  {}

  /** After a poll that waited, its waker is in its slot or has been woken since, however the run goes on. */
  lemma WaitingSenderAccounted(s: Socket, buf: Bytes, e: SendEnv, events: seq<Event>)
    requires Inv(s) && SendStep(s, buf, e).1.Pending?
    ensures var waiting := SendStep(s, buf, e).0;
      Accounted(Run(waiting, events).pendingSender, e.waker, Run(waiting, events).woken, |waiting.woken|)
  {
    SendWaits(s, buf, e);
    SendKeepsInv(s, buf, e);
    WakersAccounted(SendStep(s, buf, e).0, events);
  }

  lemma WaitingReceiverAccounted(s: Socket, cap: nat, e: RecvEnv, events: seq<Event>)
    requires Inv(s) && RecvStep(s, cap, e).1.Pending?
    ensures var waiting := RecvStep(s, cap, e).0;
      waiting.kcp.mss > 0 &&
      Accounted(Run(waiting, events).pendingReceiver, e.waker, Run(waiting, events).woken, |waiting.woken|)
  {
    ReceiveWaits(s, cap, e);
    StepKeepsInv(s, Event.PollRecv(cap, e));
    WakersAccounted(RecvStep(s, cap, e).0, events);
  }

  /** From `s` to `t` a slot has been emptied only for its cause, and each task that left a slot has been woken once. */
  ghost predicate ForCause(s: Socket, t: Socket) {
    && (t.pendingSender == s.pendingSender || (t.pendingSender == None && !MustWait(t)))
    && (t.pendingReceiver == s.pendingReceiver || (t.pendingReceiver == None && !NothingForReceiver(t)))
    && |t.woken| == |s.woken| + (if t.pendingSender == s.pendingSender then 0 else 1)
                              + (if t.pendingReceiver == s.pendingReceiver then 0 else 1)
  }

  lemma WakesForCause(s: Socket)
    ensures ForCause(s, WakeSender(s)) && ForCause(s, WakeReceiver(WakeSender(s)))
    ensures WakeSender(s).pendingReceiver == s.pendingReceiver
  {}

  /** Inputs and updates wake no task in vain: a sender only when there is room, a receiver only when it can read. */
  lemma FeedWakesForCause(s: Socket, packet: Bytes, e: FeedEnv)
    ensures ForCause(s, FeedStep(s, packet, e).0)
  {
    WakesForCause(s.(kcp := Input(s.kcp, packet, e.effect), lastUpdateMs := e.now));
  }

  lemma UpdateWakesForCause(s: Socket, now: nat, e: UpdateEffect)
    ensures ForCause(s, UpdateStep(s, now, e).0)
    ensures UpdateStep(s, now, e).0.pendingReceiver == s.pendingReceiver
  {
    WakesForCause(s.(kcp := Update(s.kcp, e)));
  }

  /** A packet that is taken counts as activity; the call says whether it woke anyone, unless its flush fails. */
  lemma FeedReports(s: Socket, packet: Bytes, e: FeedEnv)
    ensures var (after, r) := FeedStep(s, packet, e);
      && after.kcp.fed == s.kcp.fed + [packet] && after.kcp.ready == s.kcp.ready + e.effect.messages
      && after.lastUpdateMs == (if e.effect.outcome == Taken then e.now else s.lastUpdateMs)
      && r == match e.effect.outcome
              case WrongConv => Ok(false)
              case Refused(error) => Err(KcpFailed(error))
              case Taken =>
                if s.limits.flushAckInput && !e.ackFlush then Err(KcpFailed(OutputClosed))
                else Ok(|after.woken| > |s.woken|)
  {}

  /** An update asks to be run again after the idle interval if nothing is unsent, else when the engine says. */
  lemma UpdateDelay(s: Socket, now: nat, e: UpdateEffect)
    ensures var (after, r) := UpdateStep(s, now, e);
      && (r.Ok? <==> e.result.Ok?)
      && (r.Ok? ==> r.value == if after.kcp.waitSnd == 0 then s.limits.updateIntervalMs else e.result.value)
      && (r.Err? ==> r.error == KcpFailed(e.result.error))
      && after.lastUpdateMs == s.lastUpdateMs
  {}

  /** Closing wakes both waiting tasks, once each, and touches nothing but the slots and the flag. */
  lemma CloseWakes(s: Socket)
    ensures var t := CloseStep(s);
      && t == s.(closed := true, pendingSender := None, pendingReceiver := None, woken := t.woken)
      && s.woken <= t.woken
      && |t.woken| == |s.woken| + (if s.pendingSender.Some? then 1 else 0) + (if s.pendingReceiver.Some? then 1 else 0)
      && (s.pendingSender.Some? ==> s.pendingSender.value in t.woken[|s.woken|..])
      && (s.pendingReceiver.Some? ==> s.pendingReceiver.value in t.woken[|s.woken|..])
  {
    var t := CloseStep(s);
    assert s.pendingSender.Some? ==> t.woken[|s.woken|] == s.pendingSender.value;
    assert s.pendingReceiver.Some? ==> t.woken[|t.woken| - 1] == s.pendingReceiver.value;
  }

  /** A flush counts as activity exactly if it succeeds. */
  lemma FlushReports(s: Socket, now: nat, ok: bool)
    ensures FlushStep(s, now, ok) ==
      if ok then (s.(lastUpdateMs := now), Ok(())) else (s, Err(KcpFailed(OutputClosed)))
  {}
}
