/** `KcpSession` of `src/session.rs`. */
module KcpSessions {
  import opened Base
  import opened KcpContract
  import opened SocketModel
  import opened KcpSockets
  import opened SessionModel

  class KcpSession {
    const socket: KcpSocket
    const sessionExpireMs: nat
    const closeNotifier: Option<Addr>
    var closed: bool
    var ioTask: bool
    var inbox: seq<Bytes>
    /** Close notices sent. */
    var notices: nat
    ghost var polls: nat
    ghost var finalizes: nat

    ghost function View(): Session
      reads this, socket
    {
      Session(socket.State(), closed, sessionExpireMs, closeNotifier, ioTask, inbox, polls, finalizes, notices)
    }

    ghost predicate Valid()
      reads this, socket
    {
      Inv(socket.State())
    }

    constructor (socket: KcpSocket, expire: Option<nat>, closeNotifier: Option<Addr>)
      requires Inv(socket.State())
      ensures this.socket == socket
      ensures sessionExpireMs == if closeNotifier.Some? && expire.Some? then expire.value else 0
      ensures View() ==
        Session(socket.State(), false, ExpireMs(expire, closeNotifier), closeNotifier, true, [], 0, 0, 0)
    {
      this.socket, this.closeNotifier := socket, closeNotifier;
      sessionExpireMs := if closeNotifier.Some? then (match expire case Some(ms) => ms case None => 0) else 0;
      closed, ioTask, inbox, notices, polls, finalizes := false, true, [], 0, 0, 0;
    }

    method CloseSession()
      modifies this`closed
      ensures View() == old(View()).(closed := true)
    {
      closed := true;
    }

    /** Hands a packet to the session's input channel; fails once the input task is gone. */
    method InputPacket(packet: Bytes) returns (ok: bool)
      modifies this`inbox
      ensures ok == ioTask
      ensures View() == old(View()).(inbox := if ioTask then old(inbox) + [packet] else old(inbox))
    {
      if ioTask {
        inbox := inbox + [packet];
      }
      return ioTask;
    }

    method DriveUpdate(now: nat, e: UpdateEffect) returns (next: Option<nat>)
      requires Valid()
      modifies this`closed, socket
      ensures Valid() && (View(), next) == SessionModel.DriveUpdate(old(View()), now, e)
    {
      var isClosed := closed;
      if isClosed && socket.CanClose() {
        return None;
      }
      var expireMs := sessionExpireMs;
      if expireMs != 0 {
        var elapsedMs := SaturatingSub(now, socket.lastUpdateMs);
        if elapsedMs > expireMs {
          if elapsedMs > SaturatingDouble(expireMs) {
            return None;
          }
          if !isClosed {
            closed := true;
          }
        }
      }
      var delay := 10;
      var updated := socket.UpdateAt(now, e);
      match updated {
        case Ok(nextDelay) => delay := nextDelay;
        case Err(error) =>
          if error == KcpFailed(OutputClosed) {
            return None;
          }
      }
      return Some(SaturatingAdd(now, delay));
    }

    method Finalize()
      requires Valid()
      modifies this, socket
      ensures Valid() && View() == SessionModel.Finalize(old(View()))
    {
      StepKeepsInv(socket.State(), Close);
      socket.CloseSocket();
      ioTask := false;
      if closeNotifier.Some? {
        notices := notices + 1;
      }
      closed := true;
      finalizes := finalizes + 1;
    }

    method PollSchedulerTick(now: nat, e: UpdateEffect) returns (next: Option<nat>)
      requires Valid()
      modifies this, socket
      ensures Valid() && (View(), next) == TickSession(old(View()), now, e)
    {
      next := DriveUpdate(now, e);
      polls := polls + 1;
      if next.None? {
        Finalize();
      }
    }
  }
}
