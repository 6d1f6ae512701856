/** The steps of a `KcpSocket`, on values; the class in `KcpSocket.dfy` performs them in place. */
module SocketModel {
  import opened Base
  import opened KcpContract

  /** A task to wake; two wakers wake the same task exactly when they are equal. */
  type Waker = nat

  const MAX_SEND_SEGMENTS := 127

  datatype Limits = Limits(updateIntervalMs: nat, flushWrite: bool, flushAckInput: bool,
                           firstSendChunkLen: nat, maxSendChunkLen: nat, allowRecvEmptyPacket: bool)

  /** `woken` lists the wakers that have been woken, oldest first. */
  datatype Socket = Socket(kcp: Kcp, lastUpdateMs: nat, sentFirst: bool, pendingSender: Option<Waker>,
                           pendingReceiver: Option<Waker>, closed: bool, woken: seq<Waker>, limits: Limits)

  datatype SocketError = BrokenPipe | KcpFailed(error: KcpError) | FecFailed

  datatype Poll<+T> = Pending | Ready(value: T)

  /** The task that polls, the clock, how many segments the message takes, and whether the two flushes succeed. */
  datatype SendEnv = SendEnv(waker: Waker, now: nat, segments: nat, windowFlush: bool, writeFlush: bool)

  /** The task that polls, the clock, and the messages that become complete when one is taken. */
  datatype RecvEnv = RecvEnv(waker: Waker, now: nat, uncovered: seq<Bytes>)

  datatype FeedEnv = FeedEnv(effect: InputEffect, now: nat, ackFlush: bool)

  /** No room in the windows. */
  predicate WindowFull(kcp: Kcp) {
    kcp.waitSnd >= kcp.sndWnd || kcp.waitSnd >= kcp.rmtWnd
  }

  predicate SendBlocked(kcp: Kcp) {
    WindowFull(kcp) || kcp.waitingConv
  }

  predicate Readable(s: Socket) {
    PeekSize(s.kcp).Some? && (s.limits.allowRecvEmptyPacket || PeekSize(s.kcp).value > 0)
  }

  /** Putting a waker into a slot wakes the one it displaces, unless they wake the same task. */
  function WokenByParking(slot: Option<Waker>, waker: Waker, woken: seq<Waker>): seq<Waker> {
    if slot.Some? && slot.value != waker then woken + [slot.value] else woken
  }

  function ParkSender(s: Socket, waker: Waker): Socket {
    s.(pendingSender := Some(waker), woken := WokenByParking(s.pendingSender, waker, s.woken))
  }

  function ParkReceiver(s: Socket, waker: Waker): Socket {
    s.(pendingReceiver := Some(waker), woken := WokenByParking(s.pendingReceiver, waker, s.woken))
  }

  function SendLimit(s: Socket): nat {
    if !s.sentFirst && s.kcp.waitingConv then s.limits.firstSendChunkLen else s.limits.maxSendChunkLen
  }

  function Chunk(s: Socket, buf: Bytes): Bytes {
    if |buf| > SendLimit(s) then buf[..SendLimit(s)] else buf
  }

  /** Queues a chunk; flushes when it fills the windows, and again when every write is to be flushed. */
  function Transmit(s: Socket, chunk: Bytes, e: SendEnv): (r: (Socket, Result<nat, SocketError>))
    requires s.kcp.mss > 0
    ensures r.0.kcp.mss == s.kcp.mss && (r.1.Ok? ==> r.1.value == |chunk|)
  {
    match Send(s.kcp, chunk, e.segments)
    case Err(error) => (s, Err(KcpFailed(error)))
    case Ok(kcp) =>
      var sent := s.(kcp := kcp, sentFirst := true);
      if WindowFull(kcp) && !e.windowFlush then (sent, Err(KcpFailed(OutputClosed)))
      else
        (sent.(lastUpdateMs := e.now),
         if s.limits.flushWrite && !e.writeFlush then Err(KcpFailed(OutputClosed)) else Ok(|chunk|))
  }

  function SendStep(s: Socket, buf: Bytes, e: SendEnv): (r: (Socket, Poll<Result<nat, SocketError>>))
    requires s.kcp.mss > 0
    ensures r.0.kcp.mss == s.kcp.mss
    ensures r.1.Ready? && r.1.value.Ok? ==> r.1.value.value <= |buf|
  {
    if s.closed then (s, Ready(Err(BrokenPipe)))
    else if s.sentFirst && SendBlocked(s.kcp) then (ParkSender(s, e.waker), Pending)
    else
      var (sent, answer) := Transmit(s, Chunk(s, buf), e);
      (sent, Ready(answer))
  }

  function RecvStep(s: Socket, cap: nat, e: RecvEnv): (Socket, Poll<Result<Bytes, SocketError>>) {
    if s.closed then (s, Ready(Ok([])))
    else
      match Recv(s.kcp, cap)
      case Err(error) =>
        if error == RecvQueueEmpty then (ParkReceiver(s, e.waker), Pending) else (s, Ready(Err(KcpFailed(error))))
      case Ok(message) =>
        var taken := s.(kcp := AfterRecv(s.kcp, e.uncovered));
        if message == [] && !s.limits.allowRecvEmptyPacket then (ParkReceiver(taken, e.waker), Pending)
        else (taken.(lastUpdateMs := e.now), Ready(Ok(message)))
  }

  function WakeSender(s: Socket): Socket {
    if s.pendingSender.Some? && !SendBlocked(s.kcp)
    then s.(pendingSender := None, woken := s.woken + [s.pendingSender.value])
    else s
  }

  function WakeReceiver(s: Socket): Socket {
    if s.pendingReceiver.Some? && Readable(s)
    then s.(pendingReceiver := None, woken := s.woken + [s.pendingReceiver.value])
    else s
  }

  function FeedStep(s: Socket, packet: Bytes, e: FeedEnv): (Socket, Result<bool, SocketError>) {
    var fed := s.(kcp := Input(s.kcp, packet, e.effect));
    match e.effect.outcome
    case WrongConv => (fed, Ok(false))
    case Refused(error) => (fed, Err(KcpFailed(error)))
    case Taken =>
      var stamped := fed.(lastUpdateMs := e.now);
      if s.limits.flushAckInput && !e.ackFlush then (stamped, Err(KcpFailed(OutputClosed)))
      else
        var woken := WakeReceiver(WakeSender(stamped));
        (woken, Ok(woken.woken != stamped.woken))
  }

  function UpdateStep(s: Socket, now: nat, e: UpdateEffect): (Socket, Result<nat, SocketError>) {
    var updated := s.(kcp := Update(s.kcp, e));
    match e.result
    case Err(error) => (updated, Err(KcpFailed(error)))
    case Ok(check) =>
      (WakeSender(updated), Ok(if updated.kcp.waitSnd == 0 then s.limits.updateIntervalMs else check))
  }

  function FlushStep(s: Socket, now: nat, ok: bool): (Socket, Result<(), SocketError>) {
    if ok then (s.(lastUpdateMs := now), Ok(())) else (s, Err(KcpFailed(OutputClosed)))
  }

  function CloseStep(s: Socket): Socket {
    s.(closed := true, pendingSender := None, pendingReceiver := None,
       woken := s.woken + (if s.pendingSender.Some? then [s.pendingSender.value] else [])
                        + (if s.pendingReceiver.Some? then [s.pendingReceiver.value] else []))
  }

  // ---------- Runs ----------

  datatype Event =
    | PollSend(buf: Bytes, send: SendEnv)
    | PollRecv(cap: nat, recv: RecvEnv)
    | Feed(packet: Bytes, feed: FeedEnv)
    | Tick(tickMs: nat, update: UpdateEffect)
    | Flush(flushMs: nat, ok: bool)
    | SetConv(conv: nat)
    | Close

  function Step(s: Socket, ev: Event): (t: Socket)
    requires s.kcp.mss > 0
    ensures t.kcp.mss == s.kcp.mss
  {
    match ev
    case PollSend(buf, e) => SendStep(s, buf, e).0
    case PollRecv(cap, e) => RecvStep(s, cap, e).0
    case Feed(packet, e) => FeedStep(s, packet, e).0
    case Tick(now, e) => UpdateStep(s, now, e).0
    case Flush(now, ok) => FlushStep(s, now, ok).0
    case SetConv(conv) => s.(kcp := s.kcp.(conv := conv))
    case Close => CloseStep(s)
  }

  /** What every reachable socket keeps. */
  ghost predicate Inv(s: Socket) {
    && s.kcp.mss > 0 && s.limits.firstSendChunkLen == s.kcp.mss
    && s.limits.maxSendChunkLen == MAX_SEND_SEGMENTS * s.kcp.mss
    && (!s.sentFirst ==> s.pendingSender.None? && s.kcp.waitSnd == 0)
    && s.kcp.waitSnd <= Max(s.kcp.sndWnd, 1) + 126
    && (s.kcp.waitingConv ==> s.kcp.waitSnd <= 1)
    && (s.closed ==> s.pendingSender.None? && s.pendingReceiver.None?)
  }

  /** A socket as `KcpSocket::new` makes it. */
  ghost predicate Fresh(s: Socket) {
    && s.kcp.mss > 0 && s.limits.firstSendChunkLen == s.kcp.mss
    && s.limits.maxSendChunkLen == MAX_SEND_SEGMENTS * s.kcp.mss
    && !s.sentFirst && s.pendingSender.None? && s.pendingReceiver.None? && !s.closed
    && s.kcp.waitSnd == 0 && s.kcp.queued == [] && s.kcp.ready == []
  }

  /** No chunk handed to the engine is rejected as too big; it is counted as 127 segments or fewer. */
  lemma ChunkAccepted(s: Socket, buf: Bytes, segments: nat)
    requires Inv(s)
    ensures Send(s.kcp, Chunk(s, buf), segments).Ok?
    ensures var kcp := Send(s.kcp, Chunk(s, buf), segments).value;
      && kcp.waitSnd <= s.kcp.waitSnd + MAX_SEND_SEGMENTS
      && (!s.sentFirst && s.kcp.waitingConv ==> kcp.waitSnd <= s.kcp.waitSnd + 1)
  {
    FragmentsOfChunk(|Chunk(s, buf)|, s.kcp.mss);
  }

  lemma SendKeepsInv(s: Socket, buf: Bytes, e: SendEnv)
    requires Inv(s)
    ensures Inv(SendStep(s, buf, e).0)
  {
    ChunkAccepted(s, buf, e.segments);
  }

  lemma FeedKeepsInv(s: Socket, packet: Bytes, e: FeedEnv)
    requires Inv(s)
    ensures Inv(FeedStep(s, packet, e).0)
  {}

  lemma StepKeepsInv(s: Socket, ev: Event)
    requires Inv(s)
    ensures Inv(Step(s, ev))
  {
    match ev
    case PollSend(buf, e) => SendKeepsInv(s, buf, e);
    case Feed(packet, e) => FeedKeepsInv(s, packet, e);
    case _ =>
  }

  function Run(s: Socket, events: seq<Event>): (t: Socket)
    requires s.kcp.mss > 0
    ensures t.kcp.mss == s.kcp.mss
    decreases events
  {
    if events == [] then s else Run(Step(s, events[0]), events[1..])
  }

  lemma {:induction false} RunKeepsInv(s: Socket, events: seq<Event>)
    requires Inv(s)
    ensures Inv(Run(s, events))
    decreases events
  {
    if events != [] {
      StepKeepsInv(s, events[0]);
      RunKeepsInv(Step(s, events[0]), events[1..]);
    }
  }

  /** Back-pressure over whole runs: the backlog stays within the send window plus one maximal message, and while the
      conversation id is still awaited at most one segment waits. */
  lemma BackPressure(s: Socket, events: seq<Event>)
    requires Fresh(s)
    ensures var end := Run(s, events);
      && end.kcp.waitSnd <= Max(end.kcp.sndWnd, 1) + 126
      && (end.kcp.waitingConv ==> end.kcp.waitSnd <= 1)
  {
    RunKeepsInv(s, events);
  }

  /** Ticks, closing, waiting, and packets that are not taken are not activity: they leave the activity stamp alone. */
  lemma IdleSteps(s: Socket, ev: Event)
    requires s.kcp.mss > 0
    requires match ev
      case PollSend(buf, e) => SendStep(s, buf, e).1.Pending?
      case PollRecv(cap, e) => RecvStep(s, cap, e).1.Pending?
      case Feed(_, e) => e.effect.outcome != Taken
      case Flush(_, ok) => !ok
      case _ => true
    ensures Step(s, ev).lastUpdateMs == s.lastUpdateMs
  {}

  // ---------- Wakers ----------

  /** Waker `w` sits in the slot, or has been woken since the wake list had length `since`. */
  ghost predicate Accounted(slot: Option<Waker>, w: Waker, woken: seq<Waker>, since: nat) {
    slot == Some(w) || exists j :: since <= j < |woken| && woken[j] == w
  }

  /** Both slots of `s` are accounted for in `t`. */
  ghost predicate SlotsAccounted(s: Socket, t: Socket) {
    && s.woken <= t.woken
    && (s.pendingSender.Some? ==> Accounted(t.pendingSender, s.pendingSender.value, t.woken, |s.woken|))
    && (s.pendingReceiver.Some? ==> Accounted(t.pendingReceiver, s.pendingReceiver.value, t.woken, |s.woken|))
  }

  lemma AccountedTransitive(s: Socket, t: Socket, u: Socket)
    requires SlotsAccounted(s, t) && SlotsAccounted(t, u)
    ensures SlotsAccounted(s, u)
  {
    assert forall j :: 0 <= j < |t.woken| ==> u.woken[j] == t.woken[j];
  }

  lemma ParkAccounts(s: Socket, waker: Waker)
    ensures SlotsAccounted(s, ParkSender(s, waker)) && SlotsAccounted(s, ParkReceiver(s, waker))
  {
    if s.pendingSender.Some? && s.pendingSender.value != waker {
      assert ParkSender(s, waker).woken[|s.woken|] == s.pendingSender.value;
    }
    if s.pendingReceiver.Some? && s.pendingReceiver.value != waker {
      assert ParkReceiver(s, waker).woken[|s.woken|] == s.pendingReceiver.value;
    }
  }

  lemma WakeAccounts(s: Socket)
    ensures SlotsAccounted(s, WakeSender(s)) && SlotsAccounted(s, WakeReceiver(s))
    ensures SlotsAccounted(s, WakeReceiver(WakeSender(s)))
  {
    var t := WakeSender(s);
    assert t != s ==> t.woken[|s.woken|] == s.pendingSender.value;
    assert WakeReceiver(s) != s ==> WakeReceiver(s).woken[|s.woken|] == s.pendingReceiver.value;
    assert WakeReceiver(t) != t ==> WakeReceiver(t).woken[|t.woken|] == t.pendingReceiver.value;
    AccountedTransitive(s, t, WakeReceiver(t));
  }

  lemma CloseAccounts(s: Socket)
    ensures SlotsAccounted(s, CloseStep(s))
  {
    var t := CloseStep(s);
    if s.pendingSender.Some? {
      assert t.woken[|s.woken|] == s.pendingSender.value;
    }
    if s.pendingReceiver.Some? {
      assert t.woken[|t.woken| - 1] == s.pendingReceiver.value;
    }
  }

  lemma RecvAccounts(s: Socket, cap: nat, e: RecvEnv)
    ensures SlotsAccounted(s, RecvStep(s, cap, e).0)
  {
    ParkAccounts(s, e.waker);
    if s.kcp.ready != [] {
      ParkAccounts(s.(kcp := AfterRecv(s.kcp, e.uncovered)), e.waker);
    }
  }

  lemma FeedAccounts(s: Socket, packet: Bytes, e: FeedEnv)
    ensures SlotsAccounted(s, FeedStep(s, packet, e).0)
  {
    WakeAccounts(s.(kcp := Input(s.kcp, packet, e.effect), lastUpdateMs := e.now));
  }

  lemma StepAccountsWakers(s: Socket, ev: Event)
    requires Inv(s)
    ensures SlotsAccounted(s, Step(s, ev))
  {
    match ev
    case PollSend(buf, e) => ParkAccounts(s, e.waker);
    case PollRecv(cap, e) => RecvAccounts(s, cap, e);
    case Feed(packet, e) => FeedAccounts(s, packet, e);
    case Tick(_, e) => WakeAccounts(s.(kcp := Update(s.kcp, e)));
    case Close => CloseAccounts(s);
    case _ =>
  }

  /** No wakeup is lost: over any run a parked waker stays in its slot or has been woken meanwhile. */
  lemma {:induction false} WakersAccounted(s: Socket, events: seq<Event>)
    requires Inv(s)
    ensures SlotsAccounted(s, Run(s, events))
    decreases events
  {
    if events != [] {
      var next := Step(s, events[0]);
      StepKeepsInv(s, events[0]);
      StepAccountsWakers(s, events[0]);
      WakersAccounted(next, events[1..]);
      AccountedTransitive(s, next, Run(next, events[1..]));
    }
  }

  /** A closed socket stays closed, and both its slots stay empty. */
  lemma {:induction false} ClosedForever(s: Socket, events: seq<Event>)
    requires Inv(s) && s.closed
    ensures Run(s, events).closed && Run(s, events).pendingSender.None? && Run(s, events).pendingReceiver.None?
    decreases events
  {
    if events != [] {
      StepKeepsInv(s, events[0]);
      ClosedForever(Step(s, events[0]), events[1..]);
    }
  }

  /** Inputs and updates that go through to their wakeup check. */
  ghost predicate Settled(s: Socket, ev: Event) {
    match ev
    case Feed(_, e) => e.effect.outcome == Taken && (s.limits.flushAckInput ==> e.ackFlush)
    case Tick(_, e) => e.result.Ok?
    case _ => true
  }

  /** A task waits to send only while sending is blocked. */
  ghost predicate SenderWaitsForCause(s: Socket) {
    s.pendingSender.Some? ==> SendBlocked(s.kcp)
  }

  lemma StepKeepsCause(s: Socket, ev: Event)
    requires Inv(s) && SenderWaitsForCause(s) && Settled(s, ev)
    ensures SenderWaitsForCause(Step(s, ev))
  {
    match ev
    case PollSend(buf, e) => ChunkAccepted(s, buf, e.segments);
    case _ =>
  }

  lemma {:induction false} NoStrandedSender(s: Socket, events: seq<Event>)
    requires Inv(s) && SenderWaitsForCause(s)
    requires forall j :: 0 <= j < |events| ==> Settled(s, events[j])
    ensures SenderWaitsForCause(Run(s, events))
    decreases events
  {
    if events != [] {
      StepKeepsInv(s, events[0]);
      StepKeepsCause(s, events[0]);
      NoStrandedSender(Step(s, events[0]), events[1..]);
    }
  }

  /** Exactly an input or update that stops before its wakeup check can strand a sender: it does when it unblocks. */
  lemma StrandedExactly(s: Socket, ev: Event)
    requires Inv(s) && SenderWaitsForCause(s)
    ensures !SenderWaitsForCause(Step(s, ev)) <==>
      s.pendingSender.Some? &&
      match ev
      case Feed(packet, e) => !Settled(s, ev) && !SendBlocked(Input(s.kcp, packet, e.effect))
      case Tick(_, e) => !Settled(s, ev) && !SendBlocked(Update(s.kcp, e))
      case _ => false
  {
    if Settled(s, ev) {
      StepKeepsCause(s, ev);
    }
  }

  lemma {:induction false} RunConcat(s: Socket, a: seq<Event>, b: seq<Event>)
    requires s.kcp.mss > 0
    ensures Run(s, a + b) == Run(Run(s, a), b)
    decreases a
  {
    if a == [] {
      assert a + b == b;
    } else {
      assert (a + b)[1..] == a[1..] + b;
      RunConcat(Step(s, a[0]), a[1..], b);
    }
  }

  lemma {:induction false} RunKeepsLimits(s: Socket, events: seq<Event>)
    requires s.kcp.mss > 0
    ensures Run(s, events).limits == s.limits
    decreases events
  {
    if events != [] {
      StepKeepsLimits(s, events[0]);
      RunKeepsLimits(Step(s, events[0]), events[1..]);
    }
  }

  lemma StepKeepsLimits(s: Socket, ev: Event)
    requires s.kcp.mss > 0
    ensures Step(s, ev).limits == s.limits
  {}

  /** However a sender came to be stranded, the next input or update that goes through wakes it. */
  lemma SenderStrandEnds(s: Socket, before: seq<Event>, ev: Event, after: seq<Event>)
    requires Inv(s) && (ev.Feed? || ev.Tick?) && Settled(s, ev)
    requires forall j :: 0 <= j < |after| ==> Settled(s, after[j])
    ensures SenderWaitsForCause(Run(s, before + ([ev] + after)))
  {
    var t := Run(s, before);
    RunKeepsInv(s, before);
    RunKeepsLimits(s, before);
    RunConcat(s, before, [ev] + after);
    var u := Step(t, ev);
    StepKeepsInv(t, ev);
    StepKeepsLimits(t, ev);
    assert ([ev] + after)[1..] == after;
    NoStrandedSender(u, after);
  }

  /**
   * The 24 bytes of an acknowledgement of segment 0 in conversation `conv`: id, command 82, fragment 0, a window of one
   * segment, time stamp, segment number, next number expected 1, and no data.
   */
  function AckHeader(conv: byte): Bytes {
    [conv, 0, 0, 0, 82, 0, 1, 0, 0, 0, 0, 0, 0, 0, 0, 0, 1, 0, 0, 0, 0, 0, 0, 0]
  }

  /** Such a case: a packet with a foreign conversation id behind an acknowledgement frees the window, unnoticed. */
  lemma StrandedExample() returns (s: Socket, ev: Event)
    ensures s.kcp.conv == 7 && ev.Feed? && ev.packet == AckHeader(7) + AckHeader(8)
    ensures Inv(s) && SenderWaitsForCause(s) && !SenderWaitsForCause(Step(s, ev))
  {
    var kcp := Kcp(7, false, 1, 1, 1, 1, [], [], []);
    s := Socket(kcp, 0, true, Some(0), None, false, [], Limits(10, false, false, 1, MAX_SEND_SEGMENTS, false));
    ev := Feed(AckHeader(7) + AckHeader(8), FeedEnv(InputEffect(WrongConv, 1, 1, [], None), 0, true));
  }

  /** A task waits to receive only while there is nothing to read. */
  ghost predicate ReceiverWaitsForCause(s: Socket) {
    s.pendingReceiver.Some? ==> !Readable(s)
  }

  /**
   * Exactly two steps can strand a receiver: an input that stops before its wakeup check, and a receive that swallows
   * an empty message and waits. Each does when something is readable afterwards.
   */
  lemma ReceiverStrandedExactly(s: Socket, ev: Event)
    requires s.kcp.mss > 0 && ReceiverWaitsForCause(s)
    ensures !ReceiverWaitsForCause(Step(s, ev)) <==>
      match ev
      case Feed(packet, e) =>
        s.pendingReceiver.Some? && !Settled(s, ev) && Readable(s.(kcp := Input(s.kcp, packet, e.effect)))
      case PollRecv(_, e) =>
        && !s.closed && s.kcp.ready != [] && s.kcp.ready[0] == [] && !s.limits.allowRecvEmptyPacket
        && Readable(s.(kcp := AfterRecv(s.kcp, e.uncovered)))
      case _ => false
  {}

  /** Empty messages are to be received like others, or there are none. */
  ghost predicate NoneSwallowed(s: Socket, messages: seq<Bytes>) {
    s.limits.allowRecvEmptyPacket || forall i :: 0 <= i < |messages| ==> messages[i] != []
  }

  /** Inputs that go through, and no message that a receive would swallow. */
  ghost predicate ReceiverSettled(s: Socket, ev: Event) {
    match ev
    case Feed(_, e) => Settled(s, ev) && NoneSwallowed(s, e.effect.messages)
    case PollRecv(_, e) => NoneSwallowed(s, e.uncovered)
    case _ => true
  }

  /** What is ready after a step. */
  lemma ReadyAfter(s: Socket, ev: Event)
    requires s.kcp.mss > 0
    ensures var ready := Step(s, ev).kcp.ready;
      || ready == s.kcp.ready
      || (ev.Feed? && ready == s.kcp.ready + ev.feed.effect.messages)
      || (ev.PollRecv? && s.kcp.ready != [] && ready == s.kcp.ready[1..] + ev.recv.uncovered)
  {}

  lemma StepKeepsUnswallowed(s: Socket, ev: Event)
    requires s.kcp.mss > 0 && NoneSwallowed(s, s.kcp.ready) && ReceiverSettled(s, ev)
    ensures NoneSwallowed(Step(s, ev), Step(s, ev).kcp.ready)
  {
    ReadyAfter(s, ev);
    StepKeepsLimits(s, ev);
  }

  lemma StepKeepsReceiverCause(s: Socket, ev: Event)
    requires s.kcp.mss > 0 && ReceiverWaitsForCause(s) && NoneSwallowed(s, s.kcp.ready) && ReceiverSettled(s, ev)
    ensures ReceiverWaitsForCause(Step(s, ev))
  {
    ReceiverStrandedExactly(s, ev);
  }

  /** Over such runs a task waits to receive only while there is nothing to read. */
  lemma {:induction false} NoStrandedReceiver(s: Socket, events: seq<Event>)
    requires s.kcp.mss > 0 && ReceiverWaitsForCause(s) && NoneSwallowed(s, s.kcp.ready)
    requires forall j :: 0 <= j < |events| ==> ReceiverSettled(s, events[j])
    ensures ReceiverWaitsForCause(Run(s, events))
    decreases events
  {
    if events != [] {
      var next := Step(s, events[0]);
      StepKeepsReceiverCause(s, events[0]);
      StepKeepsUnswallowed(s, events[0]);
      StepKeepsLimits(s, events[0]);
      forall j | 0 <= j < |events[1..]|
        ensures ReceiverSettled(next, events[1..][j])
      {
        assert ReceiverSettled(s, events[j + 1]);
      }
      NoStrandedReceiver(next, events[1..]);
    }
  }

  lemma SettledInputWakes(s: Socket, packet: Bytes, e: FeedEnv)
    requires Settled(s, Feed(packet, e))
    ensures FeedStep(s, packet, e).1.Ok? && ReceiverWaitsForCause(FeedStep(s, packet, e).0)
  {}

  /** However a receiver came to be stranded, the next input that goes through wakes it. */
  lemma ReceiverStrandEnds(s: Socket, before: seq<Event>, ev: Event)
    requires s.kcp.mss > 0 && ev.Feed? && Settled(s, ev)
    ensures ReceiverWaitsForCause(Run(s, before + [ev]))
  {
    RunConcat(s, before, [ev]);
    RunKeepsLimits(s, before);
    assert [ev][1..] == [];
    assert Run(s, before + [ev]) == Step(Run(s, before), ev);
  }

  /** Such a case: a swallowed empty message in front of one byte to read. */
  lemma ReceiverStrandedExample() returns (s: Socket, ev: Event)
    ensures Inv(s) && s.kcp.ready == [[], [1]] && ev.PollRecv?
    ensures ReceiverWaitsForCause(s) && !ReceiverWaitsForCause(Step(s, ev))
  {
    var kcp := Kcp(7, false, 0, 1, 1, 1, [[], [1]], [], []);
    s := Socket(kcp, 0, true, None, None, false, [], Limits(10, false, false, 1, MAX_SEND_SEGMENTS, false));
    ev := PollRecv(1, RecvEnv(0, 0, []));
  }
}
