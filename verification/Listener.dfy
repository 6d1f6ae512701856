/** `KcpSessionManager` of `src/session.rs` and the loop body of `src/listener.rs`. */
module Listening {
  import opened Base
  import opened FecFormat
  import opened KcpContract
  import opened SocketModel
  import opened KcpSockets
  import opened SessionModel
  import opened KcpSessions
  import opened SessionTable
  import opened ListenerModel

  ghost function Views(all: set<KcpSession>): map<KcpSession, Session>
    reads all, set s | s in all :: s.socket
  {
    map s | s in all :: s.View()
  }

  /** If one session has changed and the others have not, so have their views. */
  lemma ViewsAfter(session: KcpSession, before: map<KcpSession, Session>)
    requires session in before
    requires forall s :: s in before && s != session ==> s.View() == before[s]
    ensures Views(before.Keys) == before[session := session.View()]
  {}

  /** `close()` on one of many sessions. */
  method CloseOne(session: KcpSession, ghost all: set<KcpSession>)
    requires session in all
    modifies session`closed
    ensures Views(all) == old(Views(all))[session := old(Views(all))[session].(closed := true)]
  {
    session.CloseSession();
    ViewsAfter(session, old(Views(all)));
  }

  /** `input()` on one of many sessions. */
  method DeliverTo(session: KcpSession, packet: Bytes, ghost all: set<KcpSession>)
    requires session in all
    modifies session`inbox
    ensures Views(all) == Inboxed(old(Views(all)), session, packet)
  {
    var _ := session.InputPacket(packet);
    ViewsAfter(session, old(Views(all)));
  }

  class KcpSessionManager {
    const fec: bool
    var sessions: map<Addr, KcpSession>
    /** All server sessions ever made. */
    ghost var all: set<KcpSession>

    ghost predicate Valid()
      reads this, all, set s | s in all :: s.socket
    {
      TableInv(fec, sessions, Views(all))
    }

    constructor (fec: bool)
      ensures Valid() && this.fec == fec && all == {} && sessions == map[]
    {
      this.fec, sessions, all := fec, map[], {};
    }

    /** Removes a peer's entry; dropping it closes the session. */
    method ClosePeer(peer: Addr)
      requires Valid()
      modifies this`sessions, all
      ensures Valid() && sessions == old(sessions) - {peer}
      ensures all == old(all) && Views(all) == CloseListed(old(sessions), old(Views(all)), peer)
    {
      if peer in sessions {
        RemovalKeepsTable(fec, sessions, Views(all), peer);
        var table := RemoveEntry(sessions, peer, all);
        label removed:
        sessions := table;
        ViewsKept@removed(all);
      } else {
        assert sessions - {peer} == sessions;
      }
    }

    /** Makes a session, lists it for its peer and closes the one it replaces. */
    method Install(conv: nat, peer: Addr, setup: Setup) returns (session: KcpSession)
      requires Valid() && conv != 0 && setup.mss > 0
      modifies this`sessions, this`all, all
      ensures fresh(session) && Valid() && session !in old(all) && all == old(all) + {session}
      ensures sessions == old(sessions)[peer := session] && NewlyMade(session.View(), conv, peer, setup)
      ensures Views(all) == CloseListed(old(sessions), old(Views(all)), peer)[session := session.View()]
    {
      session := NewSession(conv, peer, setup);
      InstallKeepsTable(fec, sessions, Views(all), peer, session, session.View());
      var table := InsertEntry(sessions, peer, session, all);
      label inserted:
      sessions, all := table, all + {session};
      ViewsKept@inserted(all);
    }

    /** The session for a packet, made if needed; fails only when a new socket cannot be made. */
    method GetOrCreate(conv: nat, sn: nat, peer: Addr, setup: Setup) returns (r: Option<(KcpSession, bool)>)
      requires Valid() && conv != 0 && setup.mss > 0
      modifies this`sessions, this`all, all
      ensures Valid()
      ensures var wanted := old(peer !in sessions || (sn == 0 && sessions[peer].socket.kcp.conv != conv));
        && wanted == StartsOver(old(sessions), old(Views(all)), conv, sn, peer)
        && (r.None? <==> wanted && !setup.ok)
        && (r.Some? ==> r.value.1 == wanted && r.value.0 in all && peer in sessions && sessions[peer] == r.value.0)
      ensures r.None? || !r.value.1 ==> sessions == old(sessions) && all == old(all) && Views(all) == old(Views(all))
      ensures r.Some? && r.value.1 ==>
        && fresh(r.value.0) && r.value.0 !in old(all) && all == old(all) + {r.value.0}
        && sessions == old(sessions)[peer := r.value.0] && NewlyMade(r.value.0.View(), conv, peer, setup)
        && Views(all) == CloseListed(old(sessions), old(Views(all)), peer)[r.value.0 := r.value.0.View()]
    {
      if peer in sessions {
        assert Entry(sessions, Views(all), peer);
        var session := sessions[peer];
        if sn != 0 || session.socket.kcp.conv == conv {
          return Some((session, false));
        }
      }
      if !setup.ok {
        return None;
      }
      var session := Install(conv, peer, setup);
      return Some((session, true));
    }

    /** Hands a packet to a session of its conversation. */
    method Deliver(session: KcpSession, packet: Bytes)
      requires Valid() && session in all && SpeaksFor(fec, packet, session.socket.kcp.conv)
      modifies all
      ensures Valid() && Views(all) == Inboxed(old(Views(all)), session, packet)
    {
      InboxedKeepsTable(fec, sessions, Views(all), session, packet);
      DeliverTo(session, packet, all);
    }
  }

  method NewSocket(conv: nat, setup: Setup) returns (socket: KcpSocket)
    requires setup.mss > 0
    ensures fresh(socket) && Fresh(socket.State()) && Inv(socket.State())
    ensures socket.kcp == Kcp(conv, conv == 0, 0, setup.sndWnd, setup.rmtWnd, setup.mss, [], [], [])
    ensures socket.lastUpdateMs == setup.now && socket.woken == []
    ensures socket.limits == Limits(setup.updateIntervalMs, setup.flushWrite, setup.flushAckInput, setup.mss,
                                    127 * setup.mss, setup.allowRecvEmptyPacket)
  {
    var kcp := Kcp(conv, conv == 0, 0, setup.sndWnd, setup.rmtWnd, setup.mss, [], [], []);
    socket := new KcpSocket(kcp, setup.updateIntervalMs, setup.flushWrite, setup.flushAckInput,
                            setup.allowRecvEmptyPacket, null, setup.now);
  }

  /** Lists a session for its peer; dropping the session it replaces closes that one. */
  method InsertEntry(table: map<Addr, KcpSession>, peer: Addr, session: KcpSession, ghost all: set<KcpSession>)
      returns (after: map<Addr, KcpSession>)
    requires session !in all && (peer in table ==> table[peer] in all)
    modifies all
    ensures after == table[peer := session]
    ensures Views(all + {session}) == CloseListed(table, old(Views(all)), peer)[session := old(session.View())]
  {
    AddView(all, session);
    after := table[peer := session];
    if peer in table {
      CloseOne(table[peer], all + {session});
    }
  }

  /** Takes a peer's entry out; dropping it closes its session. */
  method RemoveEntry(table: map<Addr, KcpSession>, peer: Addr, ghost all: set<KcpSession>)
      returns (after: map<Addr, KcpSession>)
    requires peer in table && table[peer] in all
    modifies all
    ensures after == table - {peer} && Views(all) == CloseListed(table, old(Views(all)), peer)
  {
    after := table - {peer};
    CloseOne(table[peer], all);
  }

  twostate lemma ViewsKept(all: set<KcpSession>)
    requires forall s :: s in all ==> s.View() == old(s.View())
    ensures Views(all) == old(Views(all))
  {}

  method NewSession(conv: nat, peer: Addr, setup: Setup) returns (session: KcpSession)
    requires setup.mss > 0
    ensures fresh(session) && fresh(session.socket) && session.Valid()
    ensures NewlyMade(session.View(), conv, peer, setup)
  {
    var socket := NewSocket(conv, setup);
    session := new KcpSession(socket, setup.expire, Some(peer));
  }

  lemma AddView(all: set<KcpSession>, session: KcpSession)
    ensures Views(all + {session}) == Views(all)[session := session.View()]
  {}

  /** A parity packet goes to the peer's session, if there is one. */
  method PassParity(manager: KcpSessionManager, packet: Bytes, peer: Addr) returns (h: Handling<KcpSession>)
    requires manager.Valid() && IsFecParity(manager.fec, packet)
    modifies manager.all
    ensures manager.Valid()
    ensures peer in manager.sessions ==>
      && manager.sessions[peer] in manager.all && h == Passed(manager.sessions[peer])
      && Views(manager.all) == Inboxed(old(Views(manager.all)), manager.sessions[peer], packet)
    ensures peer !in manager.sessions ==> h == Ignored && Views(manager.all) == old(Views(manager.all))
  {
    if peer !in manager.sessions {
      return Ignored;
    }
    assert Entry(manager.sessions, Views(manager.all), peer);
    var session := manager.sessions[peer];
    manager.Deliver(session, packet);
    return Passed(session);
  }

  /** Making a session and handing it the packet, or closing it again, is what the model calls adding one. */
  lemma MadeIsAdded(table: map<Addr, KcpSession>, all: map<KcpSession, Session>, packet: Bytes, conv: nat, peer: Addr,
                    setup: Setup, s: KcpSession, made: Session)
    requires s !in all && NewlyMade(made, conv, peer, setup)
    ensures var with := CloseListed(table, all, peer)[s := made];
      && Added(table, all, table[peer := s], Inboxed(with, s, packet), packet, conv, peer, setup, true, s)
      && Added(table, all, table[peer := s] - {peer}, CloseListed(table[peer := s], with, peer), packet, conv, peer,
               setup, false, s)
  {
    var with := CloseListed(table, all, peer)[s := made];
    assert table[peer := s] - {peer} == table - {peer};
    assert [] + [packet] == [packet];
    assert Inboxed(with, s, packet)[s].(inbox := []) == made;
    assert CloseListed(table[peer := s], with, peer)[s].(closed := false) == made;
  }

  /** The rest of an iteration, for a packet of conversation `conv`. */
  method PassOn(manager: KcpSessionManager, packet: Bytes, conv: nat, sn: nat, peer: Addr, setup: Setup, acceptOk: bool)
      returns (h: Handling<KcpSession>)
    requires manager.Valid() && conv != 0 && setup.mss > 0 && SpeaksFor(manager.fec, packet, conv)
    modifies manager`sessions, manager`all, manager.all
    ensures manager.Valid() && old(manager.all) <= manager.all
    ensures Routed(old(manager.sessions), old(Views(manager.all)), manager.sessions, Views(manager.all), packet, conv,
                   sn, peer, setup, acceptOk, h)
  {
    ghost var start, table := Views(manager.all), manager.sessions;
    var got := manager.GetOrCreate(conv, sn, peer, setup);
    if got.None? {
      return Ignored;
    }
    var (session, created) := got.value;
    if created {
      MadeIsAdded(table, start, packet, conv, peer, setup, session, session.View());
      if !acceptOk {
        // The stream of the new session is dropped, which closes the session, and so is its entry.
        manager.ClosePeer(peer);
        return Ignored;
      }
    } else if session.socket.kcp.conv != conv {
      return Ignored;
    }
    manager.Deliver(session, packet);
    return Passed(session);
  }

  /** `kcp::set_conv` on the KCP part of a packet, in place. */
  method SetConv(fec: bool, packet: array<byte>, conv: u32)
    requires HasKcpHeader(fec, packet[..])
    modifies packet
    ensures packet[..] == WithConv(fec, old(packet[..]), conv)
  {
    ghost var before := packet[..];
    var at := KcpOffset(fec, packet[..]);
    var bytes := ToLe(conv, NUMBER_SIZE);
    forall i | 0 <= i < NUMBER_SIZE {
      packet[at + i] := bytes[i];
    }
    assert packet[..] == before[..at] + bytes + before[at + NUMBER_SIZE..];
  }

  /** The conversation a packet is for, and its segment number; a server-chosen id replaces 0 in place. */
  method Classify(fec: bool, packet: array<byte>, freshConv: u32) returns (conv: nat, sn: nat)
    requires HasKcpHeader(fec, packet[..]) && !IsFecParity(fec, packet[..]) && freshConv != 0
    modifies packet
    ensures conv != 0 && SpeaksFor(fec, packet[..], conv)
    ensures var was := old(packet[..]);
      var named := GetConv(was[KcpOffset(fec, was)..]);
      && sn == GetSn(was[KcpOffset(fec, was)..])
      && conv == (if named == 0 then freshConv else named)
      && packet[..] == Addressed(fec, was, freshConv)
  {
    var at := KcpOffset(fec, packet[..]);
    conv := GetConv(packet[at..]);
    assert packet[..][at..] == packet[at..];
    if conv == 0 {
      ConvRoundTrip(fec, packet[..], freshConv);
      SetConv(fec, packet, freshConv);
      conv := freshConv;
    }
    assert packet[..][at..] == packet[at..];
    sn := GetSn(packet[at..]);
  }

  /** An iteration that has found a whole KCP header. */
  method OnConversation(manager: KcpSessionManager, packet: array<byte>, peer: Addr, freshConv: u32, setup: Setup,
                        acceptOk: bool) returns (h: Handling<KcpSession>)
    requires manager.Valid() && freshConv != 0 && setup.mss > 0
    requires HasKcpHeader(manager.fec, packet[..]) && !IsFecParity(manager.fec, packet[..])
    modifies packet, manager`sessions, manager`all, manager.all
    ensures manager.Valid() && old(manager.all) <= manager.all
    ensures Conversed(manager.fec, old(manager.sessions), old(Views(manager.all)), manager.sessions, Views(manager.all),
                      old(packet[..]), packet[..], peer, freshConv, setup, acceptOk, h)
  {
    ghost var was, views := packet[..], Views(manager.all);
    var conv, sn := Classify(manager.fec, packet, freshConv);
    var addressed := packet[..];
    assert Views(manager.all) == views;
    h := PassOn(manager, addressed, conv, sn, peer, setup, acceptOk);
    assert packet[..] == addressed == Addressed(manager.fec, was, freshConv);
  }

  /**
   * One received packet is handled as the model says. In particular the loop body panics exactly on an FEC data packet
   * without its length prefix.
   */
  method OnPacket(manager: KcpSessionManager, packet: array<byte>, peer: Addr, freshConv: u32, setup: Setup,
                  acceptOk: bool) returns (h: Handling<KcpSession>)
    requires manager.Valid() && freshConv != 0 && setup.mss > 0
    modifies packet, manager`sessions, manager`all, manager.all
    ensures manager.Valid() && old(manager.all) <= manager.all
    ensures Handled(manager.fec, old(manager.sessions), old(Views(manager.all)), manager.sessions, Views(manager.all),
                    old(packet[..]), packet[..], peer, freshConv, setup, acceptOk, h)
  {
    if IsFecParity(manager.fec, packet[..]) {
      h := PassParity(manager, packet[..], peer);
      return;
    }
    if IsFecData(manager.fec, packet[..]) && packet.Length < FEC_HEADER_SIZE_PLUS_SIZE {
      return Panicked;
    }
    if packet.Length < KcpOffset(manager.fec, packet[..]) + KCP_OVERHEAD {
      return Ignored;
    }
    h := OnConversation(manager, packet, peer, freshConv, setup, acceptOk);
  }
}
