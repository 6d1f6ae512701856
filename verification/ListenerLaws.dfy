/** What a received packet does, told from its bytes: when it starts a session over, and where it goes. */
module ListenerLaws {
  import opened Base
  import opened FecWire
  import opened SessionModel
  import opened SessionTable
  import opened ListenerModel

  /** With FEC on, bytes 4 and 5 are 0xf2 and 0. */
  predicate Parity(fec: bool, packet: Bytes) {
    fec && |packet| >= 6 && packet[4] == 0xf2 && packet[5] == 0
  }

  /** Where the 24-byte KCP header begins: behind 8 bytes if FEC is on and bytes 4 and 5 are 0xf1 and 0. */
  function KcpAt(fec: bool, packet: Bytes): nat {
    if fec && |packet| >= 6 && packet[4] == 0xf1 && packet[5] == 0 then 8 else 0
  }

  predicate WholeHeader(fec: bool, packet: Bytes) {
    |packet| >= KcpAt(fec, packet) + 24
  }

  /** The conversation a packet names: the first four bytes of its KCP header, or the fresh id in place of 0. */
  function Named(fec: bool, packet: Bytes, freshConv: u32): nat
    requires WholeHeader(fec, packet)
  {
    var conv := Le32(packet, KcpAt(fec, packet));
    if conv == 0 then freshConv else conv
  }

  /** Its segment number: the four bytes at offset 12 of the KCP header. */
  function Segment(fec: bool, packet: Bytes): nat
    requires WholeHeader(fec, packet)
  {
    Le32(packet, KcpAt(fec, packet) + 12)
  }

  lemma HeaderAt(fec: bool, packet: Bytes)
    ensures IsFecParity(fec, packet) <==> Parity(fec, packet)
    ensures KcpOffset(fec, packet) == KcpAt(fec, packet)
    ensures HasKcpHeader(fec, packet) <==> WholeHeader(fec, packet)
    ensures WholeHeader(fec, packet) ==>
      && GetConv(packet[KcpAt(fec, packet)..]) == Le32(packet, KcpAt(fec, packet))
      && GetSn(packet[KcpAt(fec, packet)..]) == Segment(fec, packet)
  {
    FlagBytes(packet);
    if WholeHeader(fec, packet) {
      var header := packet[KcpAt(fec, packet)..];
      Number4(header[..4]);
      Number4(header[12..16]);
      assert Le32(header[..4], 0) == Le32(packet, KcpAt(fec, packet));
      assert Le32(header[12..16], 0) == Segment(fec, packet);
    }
  }

  /** Nothing but the listed session of the peer, if any, has changed. */
  ghost predicate OthersKept<S>(table: map<Addr, S>, all: map<S, Session>, all': map<S, Session>, peer: Addr) {
    forall s :: s in all && !(peer in table && table[peer] == s) ==> s in all' && all'[s] == all[s]
  }

  /** What `Handled` says of a packet with a whole header, in terms of its bytes. */
  lemma HandledByBytes<S>(fec: bool, table: map<Addr, S>, all: map<S, Session>, table': map<Addr, S>,
                          all': map<S, Session>, was: Bytes, now: Bytes, peer: Addr, freshConv: u32, setup: Setup,
                          acceptOk: bool, h: Handling<S>)
    requires freshConv != 0 && !Parity(fec, was) && WholeHeader(fec, was)
    requires Handled(fec, table, all, table', all', was, now, peer, freshConv, setup, acceptOk, h)
    ensures Routed(table, all, table', all', now, Named(fec, was, freshConv), Segment(fec, was), peer, setup, acceptOk,
                   h)
    ensures WholeHeader(fec, now) && Le32(now, KcpAt(fec, now)) == Named(fec, was, freshConv)
    ensures Le32(was, KcpAt(fec, was)) != 0 ==> now == was
  {
    HeaderAt(fec, was);
    if Le32(was, KcpAt(fec, was)) == 0 {
      ConvRoundTrip(fec, was, freshConv);
    }
    HeaderAt(fec, now);
  }

  /** The session has one more packet waiting, if its input task still runs. */
  function WithPacket(s: Session, packet: Bytes): Session {
    if s.ioTask then s.(inbox := s.inbox + [packet]) else s
  }

  /** The peer has no session of this conversation. */
  ghost predicate OtherConversation<S>(table: map<Addr, S>, all: map<S, Session>, peer: Addr, conv: nat) {
    peer !in table || (table[peer] in all && all[table[peer]].socket.kcp.conv != conv)
  }

  /**
   * A first segment, or any segment of an unknown peer, always gets through if a socket can be made and the stream is
   * accepted. If the peer's session is of another conversation it is closed and replaced by a new one; if it is of this
   * one it is kept.
   */
  lemma FirstSegment<S>(fec: bool, table: map<Addr, S>, all: map<S, Session>, table': map<Addr, S>,
                        all': map<S, Session>, was: Bytes, now: Bytes, peer: Addr, freshConv: u32, setup: Setup,
                        h: Handling<S>)
    requires TableInv(fec, table, all) && freshConv != 0 && setup.ok && !Parity(fec, was) && WholeHeader(fec, was)
    requires Segment(fec, was) == 0 || peer !in table
    requires Handled(fec, table, all, table', all', was, now, peer, freshConv, setup, true, h)
    ensures h.Passed? && table' == table[peer := h.session] && h.session in all'
    ensures all'[h.session].socket.kcp.conv == Named(fec, was, freshConv)
    ensures var inbox := all'[h.session].inbox;
      all'[h.session].ioTask ==> inbox != [] && inbox[|inbox| - 1] == now
    ensures OthersKept(table, all, all', peer)
    ensures if OtherConversation(table, all, peer, Named(fec, was, freshConv)) then
        && h.session !in all && !all'[h.session].closed && all'[h.session].inbox == [now]
        && (peer in table ==> table[peer] in all' && all'[table[peer]].closed)
      else h.session == table[peer] && h.session in all && all'[h.session].closed == all[h.session].closed
  {
    HandledByBytes(fec, table, all, table', all', was, now, peer, freshConv, setup, true, h);
    assert peer in table ==> Entry(table, all, peer);
  }

  /**
   * Any other segment from a listed peer replaces and closes nothing: it goes to the listed session if that is of its
   * conversation, and is ignored otherwise.
   */
  lemma LaterSegment<S>(fec: bool, table: map<Addr, S>, all: map<S, Session>, table': map<Addr, S>,
                        all': map<S, Session>, was: Bytes, now: Bytes, peer: Addr, freshConv: u32, setup: Setup,
                        acceptOk: bool, h: Handling<S>)
    requires TableInv(fec, table, all) && freshConv != 0 && !Parity(fec, was) && WholeHeader(fec, was)
    requires Segment(fec, was) != 0 && peer in table
    requires Handled(fec, table, all, table', all', was, now, peer, freshConv, setup, acceptOk, h)
    ensures table' == table && all'.Keys == all.Keys && forall s :: s in all ==> all'[s].closed == all[s].closed
    ensures OthersKept(table, all, all', peer)
    ensures if OtherConversation(table, all, peer, Named(fec, was, freshConv)) then h == Ignored && all' == all
      else
        && table[peer] in all && h == Passed(table[peer])
        && all' == all[table[peer] := WithPacket(all[table[peer]], now)]
  {
    HandledByBytes(fec, table, all, table', all', was, now, peer, freshConv, setup, acceptOk, h);
    assert Entry(table, all, peer);
  }

  /** If no socket can be made, a packet that would need one changes nothing. */
  lemma NoSocket<S>(fec: bool, table: map<Addr, S>, all: map<S, Session>, table': map<Addr, S>,
                    all': map<S, Session>, was: Bytes, now: Bytes, peer: Addr, freshConv: u32, setup: Setup,
                    acceptOk: bool, h: Handling<S>)
    requires TableInv(fec, table, all) && freshConv != 0 && !setup.ok && !Parity(fec, was) && WholeHeader(fec, was)
    requires Segment(fec, was) == 0 || peer !in table
    requires OtherConversation(table, all, peer, Named(fec, was, freshConv))
    requires Handled(fec, table, all, table', all', was, now, peer, freshConv, setup, acceptOk, h)
    ensures h == Ignored && table' == table && all' == all
  {
    HandledByBytes(fec, table, all, table', all', was, now, peer, freshConv, setup, acceptOk, h);
    assert peer in table ==> Entry(table, all, peer);
  }

  /** If the stream is not accepted, the peer's old session and the new one are closed and the peer is not listed. */
  lemma NotAccepted<S>(fec: bool, table: map<Addr, S>, all: map<S, Session>, table': map<Addr, S>,
                       all': map<S, Session>, was: Bytes, now: Bytes, peer: Addr, freshConv: u32, setup: Setup,
                       h: Handling<S>)
    requires TableInv(fec, table, all) && freshConv != 0 && setup.ok && !Parity(fec, was) && WholeHeader(fec, was)
    requires Segment(fec, was) == 0 || peer !in table
    requires OtherConversation(table, all, peer, Named(fec, was, freshConv))
    requires Handled(fec, table, all, table', all', was, now, peer, freshConv, setup, false, h)
    ensures h == Ignored && table' == table - {peer} && OthersKept(table, all, all', peer)
    ensures forall s :: s in all' && s !in all ==> all'[s].closed
    ensures peer in table ==> table[peer] in all' && all'[table[peer]].closed
  {
    HandledByBytes(fec, table, all, table', all', was, now, peer, freshConv, setup, false, h);
    assert peer in table ==> Entry(table, all, peer);
  }

  /** Parity goes to the peer's session and nowhere else; without one it is ignored. */
  lemma ParityGoes<S>(fec: bool, table: map<Addr, S>, all: map<S, Session>, table': map<Addr, S>,
                      all': map<S, Session>, was: Bytes, now: Bytes, peer: Addr, freshConv: u32, setup: Setup,
                      acceptOk: bool, h: Handling<S>)
    requires TableInv(fec, table, all) && Parity(fec, was)
    requires Handled(fec, table, all, table', all', was, now, peer, freshConv, setup, acceptOk, h)
    ensures now == was && table' == table
    ensures if peer !in table then h == Ignored && all' == all else
      && table[peer] in all && h == Passed(table[peer])
      && all' == all[table[peer] := WithPacket(all[table[peer]], was)]
  {
    HeaderAt(fec, was);
    assert peer in table ==> Entry(table, all, peer);
  }

  /** Without a whole header nothing happens, apart from the panic on FEC data shorter than 8 bytes. */
  lemma TooShort<S>(fec: bool, table: map<Addr, S>, all: map<S, Session>, table': map<Addr, S>,
                    all': map<S, Session>, was: Bytes, now: Bytes, peer: Addr, freshConv: u32, setup: Setup,
                    acceptOk: bool, h: Handling<S>)
    requires !Parity(fec, was) && !WholeHeader(fec, was)
    requires Handled(fec, table, all, table', all', was, now, peer, freshConv, setup, acceptOk, h)
    ensures now == was && table' == table && all' == all
    ensures h == if KcpAt(fec, was) == 8 && |was| < 8 then Panicked else Ignored
  {
    HeaderAt(fec, was);
    FlagBytes(was);
  }
}
