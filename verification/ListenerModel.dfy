/** One iteration of the loop in `src/listener.rs`, on values: what each packet does to the table and the sessions. */
module ListenerModel {
  import opened Base
  import opened FecFormat
  import opened KcpContract
  import opened SocketModel
  import opened SessionModel
  import opened SessionTable

  /** What a new session is configured with, and whether making its socket succeeds. */
  datatype Setup = Setup(mss: nat, sndWnd: nat, rmtWnd: nat, expire: Option<nat>, updateIntervalMs: nat,
                         flushWrite: bool, flushAckInput: bool, allowRecvEmptyPacket: bool, now: nat, ok: bool)

  /** What became of a received packet. */
  datatype Handling<S> = Ignored | Panicked | Passed(session: S)

  /** A session as `KcpSession::new` makes it for a peer of the server. */
  ghost predicate NewlyMade(s: Session, conv: nat, peer: Addr, setup: Setup) {
    && Fresh(s.socket) && s.socket.lastUpdateMs == setup.now && s.socket.woken == []
    && s.socket.kcp == Kcp(conv, conv == 0, 0, setup.sndWnd, setup.rmtWnd, setup.mss, [], [], [])
    && s.socket.limits == Limits(setup.updateIntervalMs, setup.flushWrite, setup.flushAckInput, setup.mss,
                                 127 * setup.mss, setup.allowRecvEmptyPacket)
    && s.expireMs == (match setup.expire case Some(ms) => ms case None => 0)
    && s == Session(s.socket, false, s.expireMs, Some(peer), true, [], 0, 0, 0)
  }

  /** The peer has no session, or its first segment names another conversation. */
  ghost predicate StartsOver<S>(table: map<Addr, S>, all: map<S, Session>, conv: nat, sn: nat, peer: Addr) {
    peer !in table || (sn == 0 && table[peer] in all && all[table[peer]].socket.kcp.conv != conv)
  }

  /** One packet more in one session's inbox, unless its input task is gone. */
  ghost function Inboxed<S>(all: map<S, Session>, s: S, packet: Bytes): map<S, Session>
    requires s in all
  {
    all[s := if all[s].ioTask then all[s].(inbox := all[s].inbox + [packet]) else all[s]]
  }

  /** A new session `s` replaces the peer's, which is closed; it gets the packet, or is closed too if nobody accepts. */
  ghost predicate Added<S>(table: map<Addr, S>, all: map<S, Session>, table': map<Addr, S>, all': map<S, Session>,
                           packet: Bytes, conv: nat, peer: Addr, setup: Setup, acceptOk: bool, s: S)
  {
    && s !in all && s in all' && all' == CloseListed(table, all, peer)[s := all'[s]]
    && if acceptOk then
         && table' == table[peer := s]
         && all'[s].inbox == [packet] && NewlyMade(all'[s].(inbox := []), conv, peer, setup)
       else
         && table' == table - {peer}
         && all'[s].closed && NewlyMade(all'[s].(closed := false), conv, peer, setup)
  }

  /** What a packet of conversation `conv` does. */
  ghost predicate Routed<S>(table: map<Addr, S>, all: map<S, Session>, table': map<Addr, S>, all': map<S, Session>,
                                  packet: Bytes, conv: nat, sn: nat, peer: Addr, setup: Setup, acceptOk: bool,
                                  h: Handling<S>)
  {
    if StartsOver(table, all, conv, sn, peer) && setup.ok then
      exists s :: s in all' && Added(table, all, table', all', packet, conv, peer, setup, acceptOk, s) &&
                  h == if acceptOk then Passed(s) else Ignored
    else
      && table' == table
      && if !StartsOver(table, all, conv, sn, peer) && table[peer] in all && all[table[peer]].socket.kcp.conv == conv
         then h == Passed(table[peer]) && all' == Inboxed(all, table[peer], packet)
         else h == Ignored && all' == all
  }

  /** What any packet does; `was` and `now` are its bytes before and after. */
  ghost predicate Handled<S>(fec: bool, table: map<Addr, S>, all: map<S, Session>, table': map<Addr, S>,
                                   all': map<S, Session>, was: Bytes, now: Bytes, peer: Addr, freshConv: u32,
                                setup: Setup, acceptOk: bool, h: Handling<S>)
  {
    if IsFecParity(fec, was) then
      && now == was && table' == table
      && if peer in table && table[peer] in all
         then h == Passed(table[peer]) && all' == Inboxed(all, table[peer], was)
         else h == Ignored && all' == all
    else if !HasKcpHeader(fec, was) then
      && now == was && table' == table && all' == all
      && h == if IsFecData(fec, was) && |was| < FEC_HEADER_SIZE_PLUS_SIZE then Panicked else Ignored
    else
      Conversed(fec, table, all, table', all', was, now, peer, freshConv, setup, acceptOk, h)
  }

  /** A packet without a conversation id gets a fresh one, in place, before it is routed. */
  ghost predicate Conversed<S>(fec: bool, table: map<Addr, S>, all: map<S, Session>, table': map<Addr, S>,
                               all': map<S, Session>, was: Bytes, now: Bytes, peer: Addr, freshConv: u32, setup: Setup,
                               acceptOk: bool, h: Handling<S>)
    requires HasKcpHeader(fec, was)
  {
    var named, sn := GetConv(was[KcpOffset(fec, was)..]), GetSn(was[KcpOffset(fec, was)..]);
    && now == Addressed(fec, was, freshConv)
    && Routed(table, all, table', all', now, if named == 0 then freshConv else named, sn, peer, setup, acceptOk, h)
  }

  function Addressed(fec: bool, packet: Bytes, freshConv: u32): Bytes
    requires HasKcpHeader(fec, packet)
  {
    if GetConv(packet[KcpOffset(fec, packet)..]) == 0 then WithConv(fec, packet, freshConv) else packet
  }

  /** The packets already handed to sessions other than the one picked stay as they are. */
  ghost predicate OnlyInboxOf<S>(all: map<S, Session>, all': map<S, Session>, h: Handling<S>) {
    forall s :: s in all ==> s in all' && (h != Passed(s) ==> all'[s].inbox == all[s].inbox)
  }

  /** The packet went to the session now listed for its peer, which is of the packet's conversation. */
  ghost predicate WellPicked<S>(fec: bool, table: map<Addr, S>, all: map<S, Session>, packet: Bytes, peer: Addr, s: S) {
    && peer in table && table[peer] == s && s in all && SpeaksFor(fec, packet, all[s].socket.kcp.conv)
    && (all[s].ioTask ==> all[s].inbox != [] && all[s].inbox[|all[s].inbox| - 1] == packet)
  }

  lemma RoutedIsolates<S>(fec: bool, table: map<Addr, S>, all: map<S, Session>, table': map<Addr, S>,
                                all': map<S, Session>, packet: Bytes, conv: nat, sn: nat, peer: Addr, setup: Setup,
                                acceptOk: bool, h: Handling<S>)
    requires TableInv(fec, table, all) && conv != 0 && SpeaksFor(fec, packet, conv)
    requires Routed(table, all, table', all', packet, conv, sn, peer, setup, acceptOk, h)
    ensures TableInv(fec, table', all') && OnlyInboxOf(all, all', h)
    ensures h.Passed? ==> WellPicked(fec, table', all', packet, peer, h.session)
  {
    if peer in table {
      assert Entry(table, all, peer);
    }
    if StartsOver(table, all, conv, sn, peer) && setup.ok {
      var s :| s in all' && Added(table, all, table', all', packet, conv, peer, setup, acceptOk, s) &&
               h == if acceptOk then Passed(s) else Ignored;
      AddedKeepsTable(fec, table, all, table', all', packet, conv, peer, setup, acceptOk, s);
    } else if h.Passed? {
      InboxedKeepsTable(fec, table, all, table[peer], packet);
    }
  }

  lemma AddedKeepsTable<S>(fec: bool, table: map<Addr, S>, all: map<S, Session>, table': map<Addr, S>,
                           all': map<S, Session>, packet: Bytes, conv: nat, peer: Addr, setup: Setup,
                           acceptOk: bool, s: S)
    requires TableInv(fec, table, all) && conv != 0 && SpeaksFor(fec, packet, conv)
    requires Added(table, all, table', all', packet, conv, peer, setup, acceptOk, s)
    ensures TableInv(fec, table', all')
  {
    if acceptOk {
      InstallKeepsTable(fec, table, all, peer, s, all'[s]);
    } else {
      var made := all'[s].(closed := false);
      InstallKeepsTable(fec, table, all, peer, s, made);
      RemovalKeepsTable(fec, table[peer := s], CloseListed(table, all, peer)[s := made], peer);
      assert table[peer := s] - {peer} == table';
      assert CloseListed(table, all, peer)[s := made][s := made.(closed := true)] == all';
    }
  }

  lemma InboxedKeepsTable<S>(fec: bool, table: map<Addr, S>, all: map<S, Session>, s: S, packet: Bytes)
    requires TableInv(fec, table, all) && s in all && SpeaksFor(fec, packet, all[s].socket.kcp.conv)
    ensures TableInv(fec, table, Inboxed(all, s, packet))
  {
    DeliveryKeepsTable(fec, table, all, s, packet);
    assert !all[s].ioTask ==> Inboxed(all, s, packet) == all;
  }

  /**
   * Whatever arrives: the table invariant is kept, a packet other than parity reaches only a session of its own
   * conversation, listed for its peer, and no other session's inbox changes.
   */
  lemma HandledIsolates<S>(fec: bool, table: map<Addr, S>, all: map<S, Session>, table': map<Addr, S>,
                                 all': map<S, Session>, was: Bytes, now: Bytes, peer: Addr, freshConv: u32,
                                 setup: Setup, acceptOk: bool, h: Handling<S>)
    requires TableInv(fec, table, all) && freshConv != 0
    requires Handled(fec, table, all, table', all', was, now, peer, freshConv, setup, acceptOk, h)
    ensures TableInv(fec, table', all') && OnlyInboxOf(all, all', h)
    ensures h.Passed? ==> WellPicked(fec, table', all', now, peer, h.session)
  {
    if IsFecParity(fec, was) {
      if peer in table {
        assert Entry(table, all, peer);
        InboxedKeepsTable(fec, table, all, table[peer], was);
      }
    } else if HasKcpHeader(fec, was) {
      var conv, sn := GetConv(was[KcpOffset(fec, was)..]), GetSn(was[KcpOffset(fec, was)..]);
      if conv == 0 {
        ConvRoundTrip(fec, was, freshConv);
        RoutedIsolates(fec, table, all, table', all', now, freshConv, sn, peer, setup, acceptOk, h);
      } else {
        RoutedIsolates(fec, table, all, table', all', now, conv, sn, peer, setup, acceptOk, h);
      }
    }
  }

  /** The loop panics exactly on a packet flagged as FEC data that is too short for its length prefix. */
  lemma PanicsExactly<S>(fec: bool, table: map<Addr, S>, all: map<S, Session>, table': map<Addr, S>,
                         all': map<S, Session>, was: Bytes, now: Bytes, peer: Addr, freshConv: u32, setup: Setup,
                         acceptOk: bool, h: Handling<S>)
    requires Handled(fec, table, all, table', all', was, now, peer, freshConv, setup, acceptOk, h)
    ensures h.Panicked? <==> IsFecData(fec, was) && |was| < FEC_HEADER_SIZE_PLUS_SIZE
  {
    if IsFecData(fec, was) {
      assert !IsFecParity(fec, was);
    }
  }

  /** Such a packet: with FEC enabled, these six bytes make the loop panic whatever its state. */
  lemma PanicExample<S>(table: map<Addr, S>, all: map<S, Session>, table': map<Addr, S>, all': map<S, Session>,
                        now: Bytes, peer: Addr, freshConv: u32, setup: Setup, acceptOk: bool, h: Handling<S>)
      returns (was: Bytes)
    ensures was == [0, 0, 0, 0, TYPE_DATA, 0]
    ensures Handled(true, table, all, table', all', was, now, peer, freshConv, setup, acceptOk, h) <==>
      h == Panicked && table' == table && all' == all && now == was
  {
    was := [0, 0, 0, 0, TYPE_DATA, 0];
    assert was[NUMBER_SIZE..FEC_HEADER_SIZE] == [TYPE_DATA, 0];
    assert [TYPE_DATA, 0][1..] == [0] && [0][1..] == [];
    assert FromLe([TYPE_DATA, 0]) == TYPE_DATA + 0x100 * FromLe([0]);
  }

  // ---------- Runs ----------

  datatype Scene<S> = Scene(table: map<Addr, S>, all: map<S, Session>)

  /** The listener handles packets and close notices; in between things happen to sessions. */
  datatype ListenerEvent<S> =
    | Own(s: S, happens: SessionEvent)
    | CloseNotice(gone: Addr)
    | Packet(was: Bytes, now: Bytes, peer: Addr, freshConv: u32, setup: Setup, acceptOk: bool, h: Handling<S>)

  ghost predicate Next<S>(fec: bool, a: Scene<S>, ev: ListenerEvent<S>, b: Scene<S>) {
    match ev
    case Own(s, happens) =>
      && s in a.all && a.all[s].socket.kcp.mss > 0 && Happens(a.all[s], happens)
      && b == Scene(a.table, a.all[s := SessionStep(a.all[s], happens)])
    case CloseNotice(peer) => b == Scene(a.table - {peer}, CloseListed(a.table, a.all, peer))
    case Packet(was, now, peer, freshConv, setup, acceptOk, h) =>
      freshConv != 0 && Handled(fec, a.table, a.all, b.table, b.all, was, now, peer, freshConv, setup, acceptOk, h)
  }

  /** No session disappears, changes its peer or its conversation, or opens again. */
  ghost predicate Persists<S>(all: map<S, Session>, all': map<S, Session>) {
    forall s :: s in all ==>
      && s in all' && all'[s].peer == all[s].peer
      && all'[s].socket.kcp.conv == all[s].socket.kcp.conv && (all[s].closed ==> all'[s].closed)
  }

  lemma NextKeeps<S>(fec: bool, a: Scene<S>, ev: ListenerEvent<S>, b: Scene<S>)
    requires TableInv(fec, a.table, a.all) && Next(fec, a, ev, b)
    ensures TableInv(fec, b.table, b.all) && Persists(a.all, b.all)
  {
    match ev
    case Own(s, happens) =>
      assert Served(fec, a.all, s);
      ServerSessionEvolves(fec, a.all[s], happens);
      EvolutionKeepsTable(fec, a.table, a.all, s, SessionStep(a.all[s], happens));
    case CloseNotice(peer) =>
      if peer in a.table {
        RemovalKeepsTable(fec, a.table, a.all, peer);
      } else {
        assert a.table - {peer} == a.table;
      }
    case Packet(was, now, peer, freshConv, setup, acceptOk, h) =>
      HandledIsolates(fec, a.table, a.all, b.table, b.all, was, now, peer, freshConv, setup, acceptOk, h);
      PacketPersists(fec, a, was, now, peer, freshConv, setup, acceptOk, h, b);
  }

  lemma PersistsTransitive<S>(a: map<S, Session>, b: map<S, Session>, c: map<S, Session>)
    requires Persists(a, b) && Persists(b, c)
    ensures Persists(a, c)
  {}

  lemma RoutedPersists<S>(table: map<Addr, S>, all: map<S, Session>, table': map<Addr, S>, all': map<S, Session>,
                          packet: Bytes, conv: nat, sn: nat, peer: Addr, setup: Setup, acceptOk: bool, h: Handling<S>)
    requires Routed(table, all, table', all', packet, conv, sn, peer, setup, acceptOk, h)
    ensures Persists(all, all')
  {}

  lemma PacketPersists<S>(fec: bool, a: Scene<S>, was: Bytes, now: Bytes, peer: Addr, freshConv: u32, setup: Setup,
                          acceptOk: bool, h: Handling<S>, b: Scene<S>)
    requires Handled(fec, a.table, a.all, b.table, b.all, was, now, peer, freshConv, setup, acceptOk, h)
    ensures Persists(a.all, b.all)
  {
    if !IsFecParity(fec, was) && HasKcpHeader(fec, was) {
      var named, sn := GetConv(was[KcpOffset(fec, was)..]), GetSn(was[KcpOffset(fec, was)..]);
      var conv := if named == 0 then freshConv else named;
      RoutedPersists(a.table, a.all, b.table, b.all, now, conv, sn, peer, setup, acceptOk, h);
    }
  }

  /** `scenes` are the states before, between and after the events of a run from an empty table. */
  ghost predicate ListenerRun<S>(fec: bool, scenes: seq<Scene<S>>, events: seq<ListenerEvent<S>>) {
    && |scenes| == |events| + 1 && scenes[0] == Scene(map[], map[])
    && forall i :: 0 <= i < |events| ==> NextAt(fec, scenes, events, i)
  }

  ghost predicate NextAt<S>(fec: bool, scenes: seq<Scene<S>>, events: seq<ListenerEvent<S>>, i: nat)
    requires i < |events| && |scenes| == |events| + 1
  {
    Next(fec, scenes[i], events[i], scenes[i + 1])
  }

  /** The invariant holds at every moment of every run. */
  lemma {:induction false} TableAlways<S>(fec: bool, scenes: seq<Scene<S>>, events: seq<ListenerEvent<S>>, i: nat)
    requires ListenerRun(fec, scenes, events) && i <= |events|
    ensures TableInv(fec, scenes[i].table, scenes[i].all)
  {
    if i > 0 {
      TableAlways(fec, scenes, events, i - 1);
      assert NextAt(fec, scenes, events, i - 1);
      NextKeeps(fec, scenes[i - 1], events[i - 1], scenes[i]);
    }
  }

  lemma MomentPersists<S>(fec: bool, scenes: seq<Scene<S>>, events: seq<ListenerEvent<S>>, i: nat)
    requires ListenerRun(fec, scenes, events) && i < |events|
    ensures Persists(scenes[i].all, scenes[i + 1].all)
  {
    TableAlways(fec, scenes, events, i);
    assert NextAt(fec, scenes, events, i);
    NextKeeps(fec, scenes[i], events[i], scenes[i + 1]);
  }

  /** From any moment of a run to any later one, sessions keep their peer and conversation, and closed ones stay so. */
  lemma {:induction false} SessionsPersist<S>(fec: bool, scenes: seq<Scene<S>>, events: seq<ListenerEvent<S>>,
                                              i: nat, j: nat)
    requires ListenerRun(fec, scenes, events) && i <= j <= |events|
    ensures Persists(scenes[i].all, scenes[j].all)
  {
    if i < j {
      SessionsPersist(fec, scenes, events, i, j - 1);
      MomentPersists(fec, scenes, events, j - 1);
      PersistsTransitive(scenes[i].all, scenes[j - 1].all, scenes[j].all);
    }
  }
}
