/** The per-peer session table on values: what every listener iteration and everything in between keeps. */
module SessionTable {
  import opened Base
  import opened FecFormat
  import opened KcpContract
  import opened SocketModel
  import opened SessionModel

  /** The KCP header: 24 bytes, the conversation id first, the segment number at offset 12. */
  const KCP_OVERHEAD := 24
  const SN_OFFSET := 12

  function GetConv(packet: Bytes): nat
    requires |packet| >= KCP_OVERHEAD
  {
    FromLe(packet[..NUMBER_SIZE])
  }

  function GetSn(packet: Bytes): nat
    requires |packet| >= KCP_OVERHEAD
  {
    FromLe(packet[SN_OFFSET..SN_OFFSET + NUMBER_SIZE])
  }

  predicate IsFecData(fec: bool, packet: Bytes) {
    fec && IsDataPacket(packet)
  }

  predicate IsFecParity(fec: bool, packet: Bytes) {
    fec && IsParityPacket(packet)
  }

  /** Where the KCP packet starts: behind the FEC header and length prefix of a data packet. */
  function KcpOffset(fec: bool, packet: Bytes): nat {
    if IsFecData(fec, packet) then FEC_HEADER_SIZE_PLUS_SIZE else 0
  }

  predicate HasKcpHeader(fec: bool, packet: Bytes) {
    |packet| >= KcpOffset(fec, packet) + KCP_OVERHEAD
  }

  /** The packet with conversation id `conv` written into its KCP header. */
  function WithConv(fec: bool, packet: Bytes, conv: u32): (r: Bytes)
    requires HasKcpHeader(fec, packet)
    ensures |r| == |packet|
  {
    var at := KcpOffset(fec, packet);
    packet[..at] + ToLe(conv, NUMBER_SIZE) + packet[at + NUMBER_SIZE..]
  }

  lemma SliceBehind(r: Bytes, packet: Bytes, at: nat)
    requires |r| == |packet| >= at + KCP_OVERHEAD && r[at + NUMBER_SIZE..] == packet[at + NUMBER_SIZE..]
    ensures GetSn(r[at..]) == GetSn(packet[at..])
  {
    forall b: Bytes | |b| == |r|
      ensures b[at..][SN_OFFSET..SN_OFFSET + NUMBER_SIZE] == b[at + NUMBER_SIZE..][8..12]
    {}
  }

  /** Writing the id leaves the kind of packet and the segment number alone and is read back. */
  lemma ConvRoundTrip(fec: bool, packet: Bytes, conv: u32)
    requires HasKcpHeader(fec, packet) && !IsFecParity(fec, packet)
    ensures var r := WithConv(fec, packet, conv);
      && KcpOffset(fec, r) == KcpOffset(fec, packet) && !IsFecParity(fec, r)
      && HasKcpHeader(fec, r) && GetConv(r[KcpOffset(fec, r)..]) == conv && SpeaksFor(fec, r, conv)
      && GetSn(r[KcpOffset(fec, r)..]) == GetSn(packet[KcpOffset(fec, packet)..])
  {
    var r, at := WithConv(fec, packet, conv), KcpOffset(fec, packet);
    assert r[NUMBER_SIZE..FEC_HEADER_SIZE] == packet[NUMBER_SIZE..FEC_HEADER_SIZE];
    assert r[at..][..NUMBER_SIZE] == ToLe(conv, NUMBER_SIZE);
    assert r[at + NUMBER_SIZE..] == packet[at + NUMBER_SIZE..];
    SliceBehind(r, packet, at);
    Ranges();
    LeRoundTrip(conv, NUMBER_SIZE);
  }

  /** A packet that is not parity names the conversation `conv`. */
  predicate SpeaksFor(fec: bool, packet: Bytes, conv: nat) {
    IsFecParity(fec, packet) ||
    (HasKcpHeader(fec, packet) && GetConv(packet[KcpOffset(fec, packet)..]) == conv)
  }

  ghost predicate ServerSession(fec: bool, s: Session) {
    && s.peer.Some? && Inv(s.socket)
    && s.socket.kcp.conv != 0 && !s.socket.kcp.waitingConv
    && forall i :: 0 <= i < |s.inbox| ==> SpeaksFor(fec, s.inbox[i], s.socket.kcp.conv)
  }

  /**
   * `all` are the server sessions ever made. Each has a peer, a conversation id other than 0 and an inbox of packets
   * of that conversation; the table lists sessions under their own peers; and every session that is not closed is
   * the one listed for its peer.
   */
  ghost predicate TableInv<S>(fec: bool, table: map<Addr, S>, all: map<S, Session>) {
    && (forall s {:trigger Served(fec, all, s)} :: s in all ==> Served(fec, all, s))
    && (forall a {:trigger Entry(table, all, a)} :: a in table ==> Entry(table, all, a))
    && (forall s {:trigger OpenIsListed(table, all, s)} :: s in all ==> OpenIsListed(table, all, s))
  }

  ghost predicate Served<S>(fec: bool, all: map<S, Session>, s: S) {
    s in all && ServerSession(fec, all[s])
  }

  ghost predicate Entry<S>(table: map<Addr, S>, all: map<S, Session>, a: Addr) {
    a in table && table[a] in all && all[table[a]].peer == Some(a)
  }

  ghost predicate OpenIsListed<S>(table: map<Addr, S>, all: map<S, Session>, s: S) {
    s in all && (!all[s].closed ==> all[s].peer.Some? && all[s].peer.value in table && table[all[s].peer.value] == s)
  }

  /** Each peer has at most one open session. */
  lemma OneOpenSession<S>(fec: bool, table: map<Addr, S>, all: map<S, Session>, s: S, t: S)
    requires TableInv(fec, table, all) && s in all && t in all
    requires !all[s].closed && !all[t].closed && all[s].peer == all[t].peer
    ensures s == t
  {
    assert OpenIsListed(table, all, s) && OpenIsListed(table, all, t);
  }

  /** A server session stays what it is: it may close, its inbox may be drained, and its socket may do anything else. */
  ghost predicate Evolves(before: Session, after: Session) {
    && after.peer == before.peer && Inv(after.socket)
    && (before.closed ==> after.closed)
    && after.socket.kcp.conv == before.socket.kcp.conv && after.socket.kcp.waitingConv == before.socket.kcp.waitingConv
    && forall i :: 0 <= i < |after.inbox| ==> after.inbox[i] in before.inbox
  }

  lemma EvolutionKeepsTable<S>(fec: bool, table: map<Addr, S>, all: map<S, Session>, s: S, after: Session)
    requires TableInv(fec, table, all) && s in all && Evolves(all[s], after)
    ensures TableInv(fec, table, all[s := after])
  {
    assert Served(fec, all, s);
    assert ServerSession(fec, after);
    Rebuild(fec, table, all, table, all[s := after]);
  }

  /** From one table to the next when sessions only evolve or are added, and entries are removed or replaced. */
  lemma Rebuild<S>(fec: bool, table: map<Addr, S>, all: map<S, Session>, table': map<Addr, S>, all': map<S, Session>)
    requires TableInv(fec, table, all)
    requires forall t :: t in all' ==> (t in all && all'[t] == all[t]) || ServerSession(fec, all'[t])
    requires forall t :: t in all ==> t in all' && all'[t].peer == all[t].peer && (all[t].closed ==> all'[t].closed)
    requires forall a :: a in table' ==> (a in table && table'[a] == table[a]) ||
                                         (table'[a] in all' && all'[table'[a]].peer == Some(a))
    requires forall t :: t in all' && !all'[t].closed ==>
      (t in all && (all[t].peer.Some? && all[t].peer.value in table && table[all[t].peer.value] == t ==>
                      all[t].peer.value in table' && table'[all[t].peer.value] == t)) ||
      (all'[t].peer.Some? && all'[t].peer.value in table' && table'[all'[t].peer.value] == t)
    ensures TableInv(fec, table', all')
  {
    forall t | t in all'
      ensures Served(fec, all', t)
    {
      assert t in all ==> Served(fec, all, t);
    }
    forall a | a in table'
      ensures Entry(table', all', a)
    {
      assert a in table ==> Entry(table, all, a);
    }
    forall t | t in all'
      ensures OpenIsListed(table', all', t)
    {
      assert t in all ==> OpenIsListed(table, all, t);
    }
  }

  /**
   * What happens to a session outside the listener: a scheduler tick, a step of its socket, the input task taking a
   * packet from the inbox and feeding the socket, and `close`.
   */
  datatype SessionEvent =
    | Ticked(now: nat, update: UpdateEffect)
    | SocketStepped(step: Event)
    | InputTaken(feeds: seq<Event>)
    | Closed

  function SessionStep(s: Session, ev: SessionEvent): Session
    requires s.socket.kcp.mss > 0
  {
    match ev
    case Ticked(now, e) => TickSession(s, now, e).0
    case SocketStepped(step) => s.(socket := Step(s.socket, step))
    case InputTaken(feeds) => s.(socket := Run(s.socket, feeds), inbox := if s.inbox == [] then [] else s.inbox[1..])
    case Closed => s.(closed := true)
  }

  /** Only the input task of a client, a session without a peer to name, sets a conversation id. */
  ghost predicate Happens(s: Session, ev: SessionEvent) {
    match ev
    case SocketStepped(step) => step.SetConv? ==> s.peer.None?
    case InputTaken(feeds) => forall i :: 0 <= i < |feeds| ==> feeds[i].Feed?
    case _ => true
  }

  lemma TickEvolves(s: Session, now: nat, e: UpdateEffect)
    requires Inv(s.socket)
    ensures Evolves(s, TickSession(s, now, e).0)
  {
    TickCounts(s, now, e);
    StepKeepsInv(s.socket, Event.Tick(now, e));
    StepKeepsInv(DriveUpdate(s, now, e).0.socket, Close);
  }

  lemma SocketStepKeepsConv(s: Socket, ev: Event)
    requires s.kcp.mss > 0 && !s.kcp.waitingConv && !ev.SetConv?
    ensures Step(s, ev).kcp.conv == s.kcp.conv && !Step(s, ev).kcp.waitingConv
  {}

  lemma {:induction false} FeedsKeepConv(s: Socket, feeds: seq<Event>)
    requires s.kcp.mss > 0 && !s.kcp.waitingConv && forall i :: 0 <= i < |feeds| ==> feeds[i].Feed?
    ensures Run(s, feeds).kcp.conv == s.kcp.conv && !Run(s, feeds).kcp.waitingConv
    decreases feeds
  {
    if feeds != [] {
      SocketStepKeepsConv(s, feeds[0]);
      FeedsKeepConv(Step(s, feeds[0]), feeds[1..]);
    }
  }

  /** Whatever happens to a server session, it keeps its peer and conversation, and a closed one stays closed. */
  lemma ServerSessionEvolves(fec: bool, s: Session, ev: SessionEvent)
    requires ServerSession(fec, s) && Happens(s, ev)
    ensures Evolves(s, SessionStep(s, ev))
  {
    match ev
    case Ticked(now, e) => TickEvolves(s, now, e);
    case SocketStepped(step) =>
      StepKeepsInv(s.socket, step);
      SocketStepKeepsConv(s.socket, step);
    case InputTaken(feeds) =>
      RunKeepsInv(s.socket, feeds);
      FeedsKeepConv(s.socket, feeds);
    case Closed =>
  }

  /** Taking the entry of a peer away closes its session. */
  lemma RemovalKeepsTable<S>(fec: bool, table: map<Addr, S>, all: map<S, Session>, a: Addr)
    requires TableInv(fec, table, all) && a in table
    ensures table[a] in all
    ensures TableInv(fec, table - {a}, all[table[a] := all[table[a]].(closed := true)])
  {
    assert Entry(table, all, a);
    var s := table[a];
    assert Served(fec, all, s);
    assert ServerSession(fec, all[s].(closed := true));
    Rebuild(fec, table, all, table - {a}, all[s := all[s].(closed := true)]);
  }

  /** A new session takes its peer's entry; the session it replaces, if any, is closed. */
  lemma InstallKeepsTable<S>(fec: bool, table: map<Addr, S>, all: map<S, Session>, a: Addr, s: S, session: Session)
    requires TableInv(fec, table, all) && s !in all
    requires ServerSession(fec, session) && session.peer == Some(a)
    ensures a in table ==> table[a] in all
    ensures TableInv(fec, table[a := s], (CloseListed(table, all, a))[s := session])
  {
    if a in table {
      assert Entry(table, all, a);
      assert Served(fec, all, table[a]);
      assert ServerSession(fec, all[table[a]].(closed := true));
    }
    Rebuild(fec, table, all, table[a := s], (CloseListed(table, all, a))[s := session]);
  }

  /** The sessions once the one listed for a peer, if any, is closed. */
  ghost function CloseListed<S>(table: map<Addr, S>, all: map<S, Session>, a: Addr): map<S, Session> {
    if a in table && table[a] in all then all[table[a] := all[table[a]].(closed := true)] else all
  }

  /** A packet of the right conversation may join the inbox. */
  lemma DeliveryKeepsTable<S>(fec: bool, table: map<Addr, S>, all: map<S, Session>, s: S, packet: Bytes)
    requires TableInv(fec, table, all) && s in all && SpeaksFor(fec, packet, all[s].socket.kcp.conv)
    ensures TableInv(fec, table, all[s := all[s].(inbox := all[s].inbox + [packet])])
  {
    assert Served(fec, all, s);
    assert ServerSession(fec, all[s].(inbox := all[s].inbox + [packet]));
    Rebuild(fec, table, all, table, all[s := all[s].(inbox := all[s].inbox + [packet])]);
  }
}
