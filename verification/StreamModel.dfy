/** Sending and receiving through a `KcpStream`, on values, and the byte pipe that two streams make. */
module StreamModel {
  import opened Base
  import opened KcpContract
  import opened SocketModel

  // ---------- Sending ----------

  /** One poll of a `send` future and everything that happens to the socket before the next one. */
  datatype Attempt = Attempt(send: SendEnv, meanwhile: seq<Event>)

  /** `accepted` bytes have been reported as taken; `waits` counts the polls that had to wait. */
  datatype SendOutcome = Done(n: nat) | Failed(error: SocketError) | StillPending(accepted: nat, waits: nat)

  /** The future has the stream to itself for sending; anything else may happen at any time. */
  ghost predicate Playable(script: seq<Attempt>) {
    forall i :: 0 <= i < |script| ==> NoSending(script[i].meanwhile)
  }

  ghost predicate NoSending(events: seq<Event>) {
    forall i :: 0 <= i < |events| ==> !events[i].PollSend?
  }

  /** `send(buf)` from the point where `sent` bytes are done, polled as `script` says. */
  function SendRun(s: Socket, buf: Bytes, sent: nat, waits: nat, script: seq<Attempt>): (Socket, SendOutcome)
    requires s.kcp.mss > 0 && sent <= |buf|
    decreases script, 1
  {
    if buf != [] && sent == |buf| then (s, Done(sent))
    else if script == [] then (s, StillPending(sent, waits))
    else
      var (polled, answer) := SendStep(s, buf[sent..], script[0].send);
      SendOn(polled, answer, buf, sent, waits, script)
  }

  /** The rest of `send` after a poll that left the socket in state `polled`. */
  function SendOn(polled: Socket, answer: Poll<Result<nat, SocketError>>, buf: Bytes, sent: nat, waits: nat,
                  script: seq<Attempt>): (Socket, SendOutcome)
    requires polled.kcp.mss > 0 && script != [] && sent <= |buf|
    requires answer.Ready? && answer.value.Ok? ==> sent + answer.value.value <= |buf|
    decreases script, 0
  {
    match answer
    case Pending => SendRun(Run(polled, script[0].meanwhile), buf, sent, waits + 1, script[1..])
    case Ready(Err(error)) => (polled, Failed(error))
    case Ready(Ok(n)) =>
      if sent + n == |buf| then (polled, Done(sent + n))
      else SendRun(Run(polled, script[0].meanwhile), buf, sent + n, waits, script[1..])
  }

  /** The rest of `send` will end in `end`. */
  ghost predicate Ahead(end: (Socket, SendOutcome), s: Socket, buf: Bytes, sent: nat, waits: nat, rest: seq<Attempt>) {
    s.kcp.mss > 0 && sent <= |buf| && end == SendRun(s, buf, sent, waits, rest)
  }

  /** After such a poll, `send` polls again. */
  predicate GoesOn(answer: Poll<Result<nat, SocketError>>, buf: Bytes, sent: nat) {
    answer.Pending? || (answer.value.Ok? && sent + answer.value.value < |buf|)
  }

  ghost predicate AfterTurn(end: (Socket, SendOutcome), s: Socket, answer: Poll<Result<nat, SocketError>>, buf: Bytes,
                            sent: nat, waits: nat, rest: seq<Attempt>)
  {
    match answer
    case Pending => Ahead(end, s, buf, sent, waits + 1, rest)
    case Ready(Err(error)) => end == (s, Failed(error))
    case Ready(Ok(n)) =>
      if sent + n == |buf| then end == (s, Done(sent + n)) else Ahead(end, s, buf, sent + n, waits, rest)
  }

  lemma TurnLeads(end: (Socket, SendOutcome), s: Socket, polled: Socket, answer: Poll<Result<nat, SocketError>>,
                  buf: Bytes, sent: nat, waits: nat, rest: seq<Attempt>)
    requires Ahead(end, s, buf, sent, waits, rest) && rest != [] && (buf == [] || sent < |buf|)
    requires (polled, answer) == SendStep(s, buf[sent..], rest[0].send)
    ensures polled.kcp.mss > 0
    ensures var after := if GoesOn(answer, buf, sent) then Run(polled, rest[0].meanwhile) else polled;
      AfterTurn(end, after, answer, buf, sent, waits, rest[1..])
  {
    assert SendRun(s, buf, sent, waits, rest) == SendOn(polled, answer, buf, sent, waits, rest);
  }

  lemma SplitAt(b: Bytes, n: nat)
    requires n <= |b|
    ensures b[..n] + b[n..] == b
  {}

  /** One poll takes the next part of the buffer: not nothing if bytes are left, and never an oversized message. */
  lemma PollTakesChunk(s: Socket, buf: Bytes, e: SendEnv)
    requires Inv(s)
    ensures var (polled, answer) := SendStep(s, buf, e);
      && (answer.Pending? ==> polled.kcp.queued == s.kcp.queued)
      && (answer.Ready? && answer.value.Ok? ==>
            var n := answer.value.value;
            && n <= |buf| && (buf != [] ==> 0 < n)
            && n <= MAX_SEND_SEGMENTS * s.kcp.mss && 1 <= Fragments(n, s.kcp.mss) < FRAGMENT_LIMIT
            && polled.kcp.queued == s.kcp.queued + buf[..n])
      && (answer.Ready? && answer.value.Err? ==>
            && answer.value.error != KcpFailed(UserBufTooBig)
            && exists n :: 0 <= n <= |buf| && polled.kcp.queued == s.kcp.queued + buf[..n])
  {
    ChunkAccepted(s, buf, e.segments);
    var chunk := Chunk(s, buf);
    FragmentsOfChunk(|chunk|, s.kcp.mss);
    assert chunk == buf[..|chunk|];
    assert s.kcp.queued + buf[..0] == s.kcp.queued;
  }

  lemma StepKeepsQueued(s: Socket, ev: Event)
    requires s.kcp.mss > 0 && !ev.PollSend?
    ensures Step(s, ev).kcp.queued == s.kcp.queued
  {}

  lemma {:induction false} RunKeepsQueued(s: Socket, events: seq<Event>)
    requires s.kcp.mss > 0 && NoSending(events)
    ensures Run(s, events).kcp.queued == s.kcp.queued
    decreases events
  {
    if events != [] {
      StepKeepsQueued(s, events[0]);
      RunKeepsQueued(Step(s, events[0]), events[1..]);
    }
  }

  ghost predicate QueuedSlice(before: Bytes, after: Bytes, buf: Bytes, lo: nat, hi: nat) {
    lo <= hi <= |buf| && after == before + buf[lo..hi]
  }

  lemma SliceExtends(before: Bytes, mid: Bytes, after: Bytes, buf: Bytes, lo: nat, m: nat, hi: nat)
    requires QueuedSlice(before, mid, buf, lo, m) && QueuedSlice(mid, after, buf, m, hi)
    ensures QueuedSlice(before, after, buf, lo, hi)
  {
    assert buf[lo..hi] == buf[lo..m] + buf[m..hi];
    Associative(before, buf[lo..m], buf[m..hi]);
  }

  /**
   * The books of a `send` over `polls` polls. Finished: the whole buffer is in the queue, and that is what is reported.
   * Still waiting: what was reported is in the queue, and every poll that was not a wait took a byte or more. Failed: a
   * prefix is in the queue, and the message was not too big.
   */
  ghost predicate Accounts(before: Bytes, after: Bytes, outcome: SendOutcome, buf: Bytes, sent: nat, waits: nat,
                           polls: nat)
  {
    match outcome
    case Done(n) => n == |buf| && QueuedSlice(before, after, buf, sent, |buf|)
    case StillPending(t, w) =>
      QueuedSlice(before, after, buf, sent, t) && w >= waits && polls <= (t - sent) + (w - waits)
    case Failed(error) => error != KcpFailed(UserBufTooBig) && PrefixQueued(before, after, buf, sent)
  }

  ghost predicate PrefixQueued(before: Bytes, after: Bytes, buf: Bytes, sent: nat) {
    exists t: nat :: QueuedSlice(before, after, buf, sent, t)
  }

  lemma AccountsExtend(before: Bytes, mid: Bytes, after: Bytes, outcome: SendOutcome, buf: Bytes, sent: nat, m: nat,
                       waits: nat, waits': nat, polls: nat)
    requires QueuedSlice(before, mid, buf, sent, m) && Accounts(mid, after, outcome, buf, m, waits', polls)
    requires (m > sent && waits' == waits) || (m == sent && waits' == waits + 1)
    ensures Accounts(before, after, outcome, buf, sent, waits, polls + 1)
  {
    match outcome
    case Done(_) => SliceExtends(before, mid, after, buf, sent, m, |buf|);
    case StillPending(t, _) => SliceExtends(before, mid, after, buf, sent, m, t);
    case Failed(_) =>
      var t: nat :| QueuedSlice(mid, after, buf, m, t);
      SliceExtends(before, mid, after, buf, sent, m, t);
  }

  /** One poll, seen from the whole buffer. */
  ghost predicate PollGood(before: Bytes, polled: Socket, answer: Poll<Result<nat, SocketError>>, buf: Bytes,
                           sent: nat)
  {
    && Inv(polled)
    && match answer {
         case Pending => QueuedSlice(before, polled.kcp.queued, buf, sent, sent)
         case Ready(Ok(n)) => QueuedSlice(before, polled.kcp.queued, buf, sent, sent + n) && (sent < |buf| ==> 0 < n)
         case Ready(Err(error)) =>
           error != KcpFailed(UserBufTooBig) && PrefixQueued(before, polled.kcp.queued, buf, sent)
       }
  }

  lemma PollIsGood(s: Socket, buf: Bytes, sent: nat, e: SendEnv)
    requires Inv(s) && sent <= |buf|
    ensures PollGood(s.kcp.queued, SendStep(s, buf[sent..], e).0, SendStep(s, buf[sent..], e).1, buf, sent)
  {
    var rest := buf[sent..];
    var (polled, answer) := SendStep(s, rest, e);
    SendKeepsInv(s, rest, e);
    PollTakesChunk(s, rest, e);
    forall n | 0 <= n <= |rest|
      ensures rest[..n] == buf[sent..sent + n]
    {}
    if answer.Ready? && answer.value.Err? {
      var n :| 0 <= n <= |rest| && polled.kcp.queued == s.kcp.queued + rest[..n];
      assert QueuedSlice(s.kcp.queued, polled.kcp.queued, buf, sent, sent + n);
    }
  }

  /** For every buffer, every schedule of polls and any other traffic between two polls, the books are in order. */
  lemma {:induction false} SendAccounts(s: Socket, buf: Bytes, sent: nat, waits: nat, script: seq<Attempt>)
    requires Inv(s) && sent <= |buf| && Playable(script)
    ensures var (end, outcome) := SendRun(s, buf, sent, waits, script);
      Inv(end) && Accounts(s.kcp.queued, end.kcp.queued, outcome, buf, sent, waits, |script|)
    decreases script, 1
  {
    if (buf != [] && sent == |buf|) || script == [] {
      assert QueuedSlice(s.kcp.queued, s.kcp.queued, buf, sent, sent);
    } else {
      PollIsGood(s, buf, sent, script[0].send);
      var (polled, answer) := SendStep(s, buf[sent..], script[0].send);
      SendOnAccounts(s.kcp.queued, polled, answer, buf, sent, waits, script);
    }
  }

  lemma {:induction false} SendOnAccounts(before: Bytes, polled: Socket, answer: Poll<Result<nat, SocketError>>,
                                          buf: Bytes, sent: nat, waits: nat, script: seq<Attempt>)
    requires script != [] && Playable(script) && PollGood(before, polled, answer, buf, sent) && sent <= |buf|
    requires buf == [] || sent < |buf|
    ensures var (end, outcome) := SendOn(polled, answer, buf, sent, waits, script);
      Inv(end) && Accounts(before, end.kcp.queued, outcome, buf, sent, waits, |script|)
    decreases script, 0
  {
    var next := Run(polled, script[0].meanwhile);
    RunKeepsInv(polled, script[0].meanwhile);
    RunKeepsQueued(polled, script[0].meanwhile);
    match answer
    case Pending =>
      SendAccounts(next, buf, sent, waits + 1, script[1..]);
      var (end, outcome) := SendRun(next, buf, sent, waits + 1, script[1..]);
      AccountsExtend(before, next.kcp.queued, end.kcp.queued, outcome, buf, sent, sent, waits, waits + 1, |script| - 1);
    case Ready(Err(_)) =>
    case Ready(Ok(n)) =>
      if sent + n < |buf| {
        SendAccounts(next, buf, sent + n, waits, script[1..]);
        var (end, outcome) := SendRun(next, buf, sent + n, waits, script[1..]);
        AccountsExtend(before, next.kcp.queued, end.kcp.queued, outcome, buf, sent, sent + n, waits, waits,
                       |script| - 1);
      }
  }

  // ---------- Receiving ----------

  /** A stream's unread remainder of a message, and its socket. */
  datatype Reader = Reader(residual: Bytes, socket: Socket)

  /** `poll_recv`: the remainder first; otherwise the next message, of which what does not fit remains. */
  function ReadStep(r: Reader, cap: nat, e: RecvEnv): (Reader, Poll<Result<Bytes, SocketError>>) {
    var s := r.socket;
    if r.residual != [] then
      var n := Min(|r.residual|, cap);
      (r.(residual := r.residual[n..]), Ready(Ok(r.residual[..n])))
    else if s.closed then (r, Ready(Ok([])))
    else if s.kcp.ready == [] then (r.(socket := ParkReceiver(s, e.waker)), Pending)
    else
      var message := s.kcp.ready[0];
      var taken := s.(kcp := AfterRecv(s.kcp, e.uncovered));
      if message == [] && !s.limits.allowRecvEmptyPacket
      then (r.(socket := ParkReceiver(taken, e.waker)), Pending)
      else
        var n := Min(|message|, cap);
        (Reader(message[n..], taken.(lastUpdateMs := e.now)), Ready(Ok(message[..n])))
  }

  /** All bytes that are still to be read. */
  function Unread(r: Reader): Bytes {
    r.residual + Concat(r.socket.kcp.ready)
  }

  function Returned(answer: Poll<Result<Bytes, SocketError>>): Bytes {
    if answer.Ready? && answer.value.Ok? then answer.value.value else []
  }

  /** The bytes that taking a message uncovers. */
  function Uncovered(r: Reader, e: RecvEnv): Bytes {
    if r.residual == [] && !r.socket.closed && r.socket.kcp.ready != [] then Concat(e.uncovered) else []
  }

  /** Every read removes exactly the bytes it returns from the front of the unread bytes, and no read fails. */
  lemma ReadTakesPrefix(r: Reader, cap: nat, e: RecvEnv)
    ensures var (after, answer) := ReadStep(r, cap, e);
      && Unread(r) + Uncovered(r, e) == Returned(answer) + Unread(after)
      && |Returned(answer)| <= cap
      && (answer.Ready? ==> answer.value.Ok?)
  {
    var s := r.socket;
    var (after, answer) := ReadStep(r, cap, e);
    if r.residual == [] && !s.closed && s.kcp.ready != [] {
      var front, n := s.kcp.ready[0], Min(|s.kcp.ready[0]|, cap);
      ConcatAppend(s.kcp.ready[1..], e.uncovered);
      SplitAt(front, n);
      Associative(front, Concat(s.kcp.ready[1..]), Concat(e.uncovered));
      Associative(front[..n], front[n..], Concat(after.socket.kcp.ready));
    } else {
      var n := Min(|r.residual|, cap);
      SplitAt(r.residual, n);
      Associative(r.residual[..n], r.residual[n..], Concat(s.kcp.ready));
    }
  }

  /** A read returns nothing only for an empty buffer, a closed socket, no complete message, or an empty one. */
  lemma ReadReturnsBytes(r: Reader, cap: nat, e: RecvEnv)
    ensures Returned(ReadStep(r, cap, e).1) == [] <==>
      cap == 0 ||
      (r.residual == [] && (r.socket.closed || r.socket.kcp.ready == [] || r.socket.kcp.ready[0] == []))
  {}

  /**
   * How much a read returns: as much as the buffer holds of the remainder, or else of the next message. It waits
   * exactly for an open socket that has nothing to hand out, and then its waker is in the receiver's slot.
   */
  lemma ReadExactly(r: Reader, cap: nat, e: RecvEnv)
    ensures var (after, answer) := ReadStep(r, cap, e);
      var s := r.socket;
      var nothing := s.kcp.ready == [] || (s.kcp.ready[0] == [] && !s.limits.allowRecvEmptyPacket);
      && (answer.Pending? <==> r.residual == [] && !s.closed && nothing)
      && (answer.Pending? ==> after.residual == [] && after.socket.pendingReceiver == Some(e.waker))
      && (answer.Ready? ==>
            var front := if r.residual != [] then r.residual else if s.closed then [] else s.kcp.ready[0];
            && answer == Ready(Ok(front[..Min(cap, |front|)])) && after.residual == front[Min(cap, |front|)..]
            && after.socket.lastUpdateMs == if r.residual == [] && !s.closed then e.now else s.lastUpdateMs)
  {}

  // ---------- The pipe ----------

  /** A send that is over: its buffer, how much of it went into the queue, and whether it returned successfully. */
  datatype PastSend = PastSend(buf: Bytes, taken: nat, whole: bool)

  /**
   * Two streams over an engine that delivers in order. `sending` is the buffer of the `send` in progress and how much
   * of it has been reported as taken; `past` are the sends before it; `delivered` are the bytes of all messages the
   * receiving engine completed; `read` are the bytes the reader got.
   */
  datatype Pipe = Pipe(tx: Socket, rx: Reader, sending: Option<(Bytes, nat)>, past: seq<PastSend>,
                       delivered: Bytes, read: Bytes)

  datatype PipeEvent =
    | StartSend(buf: Bytes)
    | PollSendNow(send: SendEnv)
    | DropSend
    | Sender(tx: Event)
    | Receiver(rx: Event)
    | Read(cap: nat, recv: RecvEnv)

  /** The engine delivers in order: messages completed so far are a prefix of the bytes accepted for sending. */
  ghost predicate Enabled(p: Pipe, ev: PipeEvent) {
    match ev
    case StartSend(_) => p.sending.None?
    case PollSendNow(_) => p.sending.Some?
    case DropSend => p.sending.Some?
    case Sender(e) => !e.PollSend?
    case Receiver(e) =>
      && !e.PollRecv?
      && (e.Feed? ==> p.delivered + Concat(e.feed.effect.messages) <= p.tx.kcp.queued)
    case Read(_, e) => p.delivered + Uncovered(p.rx, e) <= p.tx.kcp.queued
  }

  /** What the past sends put into the queue. */
  function Put(past: seq<PastSend>): Bytes {
    if past == [] then [] else
    var last := past[|past| - 1];
    Put(past[..|past| - 1]) + last.buf[..Min(last.taken, |last.buf|)]
  }

  function AfterPoll(p: Pipe, polled: Socket, answer: Poll<Result<nat, SocketError>>): Pipe
    requires p.sending.Some?
  {
    var (buf, sent) := p.sending.value;
    match answer
    case Pending => p.(tx := polled)
    case Ready(Err(_)) =>
      var queued := Max(|polled.kcp.queued| - |p.tx.kcp.queued|, 0);
      p.(tx := polled, sending := None, past := p.past + [PastSend(buf, sent + queued, false)])
    case Ready(Ok(n)) =>
      if sent + n >= |buf| then p.(tx := polled, sending := None, past := p.past + [PastSend(buf, |buf|, true)])
      else p.(tx := polled, sending := Some((buf, sent + n)))
  }

  ghost function PipeStep(p: Pipe, ev: PipeEvent): Pipe
    requires PipeInv(p) && Enabled(p, ev)
  {
    match ev
    case StartSend(buf) => p.(sending := Some((buf, 0)))
    case PollSendNow(e) =>
      var (polled, answer) := SendStep(p.tx, p.sending.value.0[p.sending.value.1..], e);
      AfterPoll(p, polled, answer)
    case DropSend =>
      p.(sending := None, past := p.past + [PastSend(p.sending.value.0, p.sending.value.1, false)])
    case Sender(e) => p.(tx := Step(p.tx, e))
    case Receiver(e) =>
      p.(rx := p.rx.(socket := Step(p.rx.socket, e)),
         delivered := p.delivered + if e.Feed? then Concat(e.feed.effect.messages) else [])
    case Read(cap, e) =>
      var (after, answer) := ReadStep(p.rx, cap, e);
      p.(rx := after, read := p.read + Returned(answer), delivered := p.delivered + Uncovered(p.rx, e))
  }

  ghost predicate PipeInv(p: Pipe) {
    && Inv(p.tx) && p.rx.socket.kcp.mss > 0
    && (p.sending.Some? ==> p.sending.value.1 <= |p.sending.value.0|)
    && p.tx.kcp.queued == Put(p.past) + InProgress(p) && Truthful(p.past)
    && p.read + Unread(p.rx) == p.delivered
    && p.delivered <= p.tx.kcp.queued
  }

  /** A send that returned successfully has put in all of its buffer, any other a part from the front. */
  ghost predicate Truthful(past: seq<PastSend>) {
    forall i :: 0 <= i < |past| ==> past[i].taken <= |past[i].buf| && (past[i].whole ==> past[i].taken == |past[i].buf|)
  }

  function InProgress(p: Pipe): Bytes {
    match p.sending
    case None => []
    case Some((buf, sent)) => if sent <= |buf| then buf[..sent] else []
  }

  ghost predicate PipeFresh(p: Pipe) {
    && Fresh(p.tx) && Fresh(p.rx.socket) && p.rx.residual == [] && p.sending.None?
    && p.past == [] && p.delivered == [] && p.read == []
  }

  lemma PutSnoc(past: seq<PastSend>, send: PastSend)
    requires send.taken <= |send.buf|
    ensures Put(past + [send]) == Put(past) + send.buf[..send.taken]
  {
    assert (past + [send])[..|past|] == past;
  }

  lemma PrefixGrows(a: Bytes, b: Bytes, c: Bytes)
    requires a <= b
    ensures a <= b + c
  {}

  /** The queue after a poll of a `send`: what the past sends put in and the buffer up to `hi`. */
  lemma SliceInPipe(p: Pipe, polled: Socket, hi: nat)
    requires PipeInv(p) && p.sending.Some?
    requires QueuedSlice(p.tx.kcp.queued, polled.kcp.queued, p.sending.value.0, p.sending.value.1, hi)
    ensures polled.kcp.queued == Put(p.past) + p.sending.value.0[..hi] && p.delivered <= polled.kcp.queued
    ensures |polled.kcp.queued| - |p.tx.kcp.queued| == hi - p.sending.value.1
  {
    var (buf, sent) := p.sending.value;
    PrefixGrows(p.delivered, p.tx.kcp.queued, buf[sent..hi]);
    Associative(Put(p.past), buf[..sent], buf[sent..hi]);
    assert buf[..sent] + buf[sent..hi] == buf[..hi];
  }

  /** A send that is over is booked with what it put in. */
  lemma BookedKeepsPipe(p: Pipe, polled: Socket, hi: nat, whole: bool)
    requires PipeInv(p) && p.sending.Some? && Inv(polled) && p.delivered <= polled.kcp.queued
    requires hi <= |p.sending.value.0| && (whole ==> hi == |p.sending.value.0|)
    requires polled.kcp.queued == Put(p.past) + p.sending.value.0[..hi]
    ensures PipeInv(p.(tx := polled, sending := None, past := p.past + [PastSend(p.sending.value.0, hi, whole)]))
  {
    PutSnoc(p.past, PastSend(p.sending.value.0, hi, whole));
    assert polled.kcp.queued + [] == polled.kcp.queued;
  }

  lemma AdvancedKeepsPipe(p: Pipe, polled: Socket, hi: nat)
    requires PipeInv(p) && p.sending.Some? && Inv(polled) && p.delivered <= polled.kcp.queued
    requires hi <= |p.sending.value.0| && polled.kcp.queued == Put(p.past) + p.sending.value.0[..hi]
    ensures PipeInv(p.(tx := polled, sending := Some((p.sending.value.0, hi))))
  {}

  lemma FailedKeepsPipe(p: Pipe, polled: Socket, error: SocketError)
    requires PipeInv(p) && p.sending.Some?
    requires PollGood(p.tx.kcp.queued, polled, Ready(Err(error)), p.sending.value.0, p.sending.value.1)
    ensures PipeInv(AfterPoll(p, polled, Ready(Err(error))))
  {
    var hi: nat :| QueuedSlice(p.tx.kcp.queued, polled.kcp.queued, p.sending.value.0, p.sending.value.1, hi);
    SliceInPipe(p, polled, hi);
    BookedKeepsPipe(p, polled, hi, false);
  }

  lemma AcceptedKeepsPipe(p: Pipe, polled: Socket, n: nat)
    requires PipeInv(p) && p.sending.Some?
    requires PollGood(p.tx.kcp.queued, polled, Ready(Ok(n)), p.sending.value.0, p.sending.value.1)
    ensures PipeInv(AfterPoll(p, polled, Ready(Ok(n))))
  {
    var hi := p.sending.value.1 + n;
    SliceInPipe(p, polled, hi);
    if hi == |p.sending.value.0| {
      BookedKeepsPipe(p, polled, hi, true);
    } else {
      AdvancedKeepsPipe(p, polled, hi);
    }
  }

  lemma PendingKeepsPipe(p: Pipe, polled: Socket)
    requires PipeInv(p) && p.sending.Some?
    requires PollGood(p.tx.kcp.queued, polled, Pending, p.sending.value.0, p.sending.value.1)
    ensures PipeInv(AfterPoll(p, polled, Pending))
  {
    SliceInPipe(p, polled, p.sending.value.1);
    AdvancedKeepsPipe(p, polled, p.sending.value.1);
  }

  /** Taking the next slice of the buffer in progress keeps the queue in step with the sends. */
  lemma AfterPollKeepsPipe(p: Pipe, polled: Socket, answer: Poll<Result<nat, SocketError>>)
    requires PipeInv(p) && p.sending.Some?
    requires PollGood(p.tx.kcp.queued, polled, answer, p.sending.value.0, p.sending.value.1)
    ensures PipeInv(AfterPoll(p, polled, answer))
  {
    match answer
    case Pending => PendingKeepsPipe(p, polled);
    case Ready(Err(error)) => FailedKeepsPipe(p, polled, error);
    case Ready(Ok(n)) => AcceptedKeepsPipe(p, polled, n);
  }

  lemma PollSendKeepsPipe(p: Pipe, e: SendEnv)
    requires PipeInv(p) && p.sending.Some?
    ensures PipeInv(PipeStep(p, PollSendNow(e)))
  {
    var (buf, sent) := p.sending.value;
    PollIsGood(p.tx, buf, sent, e);
    var (polled, answer) := SendStep(p.tx, buf[sent..], e);
    AfterPollKeepsPipe(p, polled, answer);
  }

  lemma FedBytes(residual: Bytes, ready: seq<Bytes>, messages: seq<Bytes>, read: Bytes)
    ensures read + (residual + Concat(ready + messages)) == (read + (residual + Concat(ready))) + Concat(messages)
  {
    ConcatAppend(ready, messages);
    Associative(residual, Concat(ready), Concat(messages));
    Associative(read, residual + Concat(ready), Concat(messages));
  }

  lemma ReceiverKeepsPipe(p: Pipe, e: Event)
    requires PipeInv(p) && Enabled(p, Receiver(e))
    ensures PipeInv(PipeStep(p, Receiver(e)))
  {
    var s := p.rx.socket;
    if e.Feed? {
      FedBytes(p.rx.residual, s.kcp.ready, e.feed.effect.messages, p.read);
      assert Step(s, e).kcp.ready == s.kcp.ready + e.feed.effect.messages;
    } else {
      assert Step(s, e).kcp.ready == s.kcp.ready;
      assert p.delivered + [] == p.delivered;
    }
  }

  lemma ReadKeepsPipe(p: Pipe, cap: nat, e: RecvEnv)
    requires PipeInv(p) && Enabled(p, Read(cap, e))
    ensures PipeInv(PipeStep(p, Read(cap, e)))
  {
    ReadTakesPrefix(p.rx, cap, e);
    var (after, answer) := ReadStep(p.rx, cap, e);
    Associative(p.read, Returned(answer), Unread(after));
    Associative(p.read, Unread(p.rx), Uncovered(p.rx, e));
  }

  lemma PipeStepKeepsInv(p: Pipe, ev: PipeEvent)
    requires PipeInv(p) && Enabled(p, ev)
    ensures PipeInv(PipeStep(p, ev))
  {
    match ev
    case StartSend(buf) => assert buf[..0] == [];
    case PollSendNow(e) => PollSendKeepsPipe(p, e);
    case DropSend =>
      BookedKeepsPipe(p, p.tx, p.sending.value.1, false);
    case Sender(e) =>
      StepKeepsInv(p.tx, e);
      StepKeepsQueued(p.tx, e);
    case Receiver(e) => ReceiverKeepsPipe(p, e);
    case Read(cap, e) => ReadKeepsPipe(p, cap, e);
  }

  /** `p` can become `q` by enabled events. */
  ghost predicate PipeRun(p: Pipe, events: seq<PipeEvent>, q: Pipe)
    requires PipeInv(p)
    decreases events
  {
    if events == [] then p == q else
    Enabled(p, events[0]) &&
    (PipeStepKeepsInv(p, events[0]); PipeRun(PipeStep(p, events[0]), events[1..], q))
  }

  lemma {:induction false} PipeRunKeepsInv(p: Pipe, events: seq<PipeEvent>, q: Pipe)
    requires PipeInv(p) && PipeRun(p, events, q)
    ensures PipeInv(q)
    decreases events
  {
    if events != [] {
      PipeStepKeepsInv(p, events[0]);
      PipeRunKeepsInv(PipeStep(p, events[0]), events[1..], q);
    }
  }

  /**
   * Byte-stream round trip: in every run, whatever the buffers, windows, wakeups and read sizes, and whichever sends
   * fail or are dropped half way, the bytes read are a prefix of what the sends put in: all of each buffer whose send
   * succeeded, and a part from the front of each other.
   */
  lemma RoundTrip(p: Pipe, events: seq<PipeEvent>, q: Pipe)
    requires PipeFresh(p)
    ensures PipeInv(p)
    ensures PipeRun(p, events, q) ==> q.read <= Put(q.past) + InProgress(q) && Truthful(q.past)
  {
    assert Concat<byte>([]) == [];
    if PipeRun(p, events, q) {
      PipeRunKeepsInv(p, events, q);
      assert q.read <= q.delivered;
    }
  }

  function Buffers(past: seq<PastSend>): (buffers: seq<Bytes>)
    ensures |buffers| == |past|
  {
    seq(|past|, i requires 0 <= i < |past| => past[i].buf)
  }

  lemma {:induction false} WholeSends(past: seq<PastSend>)
    requires Truthful(past) && forall i :: 0 <= i < |past| ==> past[i].whole
    ensures Put(past) == Concat(Buffers(past))
  {
    if past != [] {
      var init, last := past[..|past| - 1], past[|past| - 1];
      WholeSends(init);
      assert Buffers(past) == Buffers(init) + [last.buf];
      ConcatSnoc(Buffers(init), last.buf);
    }
  }

  /** If all sends so far succeeded, the bytes read are a prefix of the buffers sent, one after another. */
  lemma RoundTripOfWholeSends(p: Pipe, events: seq<PipeEvent>, q: Pipe)
    requires PipeFresh(p) && PipeInv(p) && PipeRun(p, events, q)
    requires forall i :: 0 <= i < |q.past| ==> q.past[i].whole
    ensures q.read <= Concat(Buffers(q.past)) + InProgress(q)
  {
    RoundTrip(p, events, q);
    WholeSends(q.past);
  }
}
