/**
 * The KCP engine as this repository uses it: a reliable message queue with windows. Its wire format, congestion
 * control and retransmission are not part of this model; what they may do to the queue is passed in as an effect.
 */
module KcpContract {
  import opened Base
  import opened Arithmetic

  /** The engine rejects messages of this many fragments or more. */
  const FRAGMENT_LIMIT := 128

  /**
   * `ready` are the complete messages waiting for `recv`. `queued` (all bytes accepted by `send`) and `fed` (all
   * packets given to `input`) are histories.
   */
  datatype Kcp = Kcp(conv: nat, waitingConv: bool, waitSnd: nat, sndWnd: nat, rmtWnd: nat, mss: nat,
                     ready: seq<Bytes>, queued: Bytes, fed: seq<Bytes>)

  datatype KcpError = UserBufTooBig | UserBufTooSmall | RecvQueueEmpty | OutputClosed | OtherFailure

  /** What an incoming packet did: acknowledged segments, a new remote window, complete messages, a learned conv. */
  datatype InputEffect = InputEffect(outcome: InputOutcome, acked: nat, rmtWnd: nat, messages: seq<Bytes>,
                                     learned: Option<nat>)

  datatype InputOutcome = Taken | WrongConv | Refused(error: KcpError)

  /** What an update did: it may drop waiting segments, and says when it wants to run again. */
  datatype UpdateEffect = UpdateEffect(result: Result<nat, KcpError>, dropped: nat)

  function Fragments(len: nat, mss: nat): nat
    requires mss > 0
  {
    if len <= mss then 1 else Quot(len + mss - 1, mss)
  }

  /** `send` takes a whole message of fewer than 128 fragments, as `segments` or fewer new segments (streams merge). */
  function Send(kcp: Kcp, buf: Bytes, segments: nat): Result<Kcp, KcpError>
    requires kcp.mss > 0
  {
    if Fragments(|buf|, kcp.mss) >= FRAGMENT_LIMIT then Err(UserBufTooBig)
    else Ok(kcp.(waitSnd := kcp.waitSnd + Min(segments, Fragments(|buf|, kcp.mss)), queued := kcp.queued + buf))
  }

  function PeekSize(kcp: Kcp): Option<nat> {
    if kcp.ready == [] then None else Some(|kcp.ready[0]|)
  }

  function Recv(kcp: Kcp, cap: nat): Result<Bytes, KcpError> {
    if kcp.ready == [] then Err(RecvQueueEmpty)
    else if |kcp.ready[0]| > cap then Err(UserBufTooSmall)
    else Ok(kcp.ready[0])
  }

  /** `recv` takes the first message; the room it makes may complete further ones that were held back. */
  function AfterRecv(kcp: Kcp, uncovered: seq<Bytes>): Kcp
    requires kcp.ready != []
  {
    kcp.(ready := kcp.ready[1..] + uncovered)
  }

  function Input(kcp: Kcp, packet: Bytes, e: InputEffect): Kcp {
    kcp.(waitSnd := kcp.waitSnd - Min(e.acked, kcp.waitSnd),
         rmtWnd := e.rmtWnd,
         ready := kcp.ready + e.messages,
         conv := if kcp.waitingConv && e.learned.Some? then e.learned.value else kcp.conv,
         waitingConv := kcp.waitingConv && e.learned.None?,
         fed := kcp.fed + [packet])
  }

  function Update(kcp: Kcp, e: UpdateEffect): Kcp {
    kcp.(waitSnd := kcp.waitSnd - Min(e.dropped, kcp.waitSnd))
  }

  /** A message of at most 127 full segments is never too big. */
  lemma FragmentsOfChunk(len: nat, mss: nat)
    requires mss > 0 && len <= 127 * mss
    ensures 1 <= Fragments(len, mss) < FRAGMENT_LIMIT
  {
    TimesOperator(128, mss);
    if len > mss {
      QuotBelow(len + mss - 1, 128, mss);
    }
  }

  /** A message of `len` bytes takes the fewest fragments that hold it, and at least one. */
  lemma FragmentsHold(len: nat, mss: nat)
    requires mss > 0
    ensures var f := Fragments(len, mss); f >= 1 && len <= f * mss && (f > 1 ==> len > (f - 1) * mss)
  {
    if len > mss {
      DivModOperators(len + mss - 1, mss);
      var _, _ := DivMod(len + mss - 1, mss);
    }
  }

  /** Messages of 128 fragments or more are rejected, all others taken whole for at most as many segments. */
  lemma SendTakesOrRejects(kcp: Kcp, buf: Bytes, segments: nat)
    requires kcp.mss > 0
    ensures var r := Send(kcp, buf, segments);
      && (r.Err? <==> Fragments(|buf|, kcp.mss) >= 128) && (r.Err? ==> r.error == UserBufTooBig)
      && (r.Ok? ==> r.value.queued == kcp.queued + buf && kcp.waitSnd <= r.value.waitSnd <= kcp.waitSnd + 127)
  {}
}
