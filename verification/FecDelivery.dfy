/**
 * A receiving socket with FEC over whole runs: what has been fed to the engine, also when some calls fail. A packet
 * whose own payload fails does not reach the decoder, so for recovery it counts as never having arrived.
 */
module FecDelivery {
  import opened Base
  import opened FecFormat
  import opened ErasureCode
  import opened FecTranscript
  import opened FecReception
  import opened FecBounds
  import opened FecChannel
  import opened FecRecovery
  import opened FecWire
  import opened SocketModel
  import opened KcpSockets

  /** A packet given to `input`, with what feeding the engine does, or any other step of the socket. */
  datatype Happening = Packet(packet: Bytes, wire: nat -> FeedEnv) | Else(ev: Event)

  /** The socket and what its decoder has recorded. */
  datatype Receiver = Receiver(socket: Socket, record: seq<Arrival>)

  ghost predicate Sound(codec: Codec, r: Receiver) {
    codec.shape.Valid() && KeepsAllPlaces(codec) && AllFit(codec.shape, r.record) && r.socket.kcp.mss > 0
  }

  ghost function Deliver(codec: Codec, r: Receiver, h: Happening): (after: Receiver)
    requires Sound(codec, r)
    ensures Sound(codec, after)
  {
    match h
    case Packet(packet, wire) =>
      FecStepKeepsMss(codec, r.record, r.socket, packet, wire);
      var (socket, _, record) := InputStep(codec, r.record, r.socket, packet, wire);
      Receiver(socket, record)
    case Else(ev) => Receiver(Step(r.socket, ev), r.record)
  }

  ghost predicate Succeeds(codec: Codec, r: Receiver, h: Happening)
    requires Sound(codec, r)
  {
    h.Packet? ==> InputStep(codec, r.record, r.socket, h.packet, h.wire).1.Ok?
  }

  ghost function DeliverAll(codec: Codec, r: Receiver, run: seq<Happening>): (after: Receiver)
    requires Sound(codec, r)
    ensures Sound(codec, after)
  {
    if run == [] then r else Deliver(codec, DeliverAll(codec, r, run[..|run| - 1]), run[|run| - 1])
  }

  /** It is a FEC packet and its own payload goes through, so that the decoder sees it. */
  ghost predicate Records(r: Receiver, h: Happening) {
    h.Packet? && MarkedFec(h.packet) && FeedAll(r.socket, DirectPayload(h.packet), h.wire, 0).1.Ok?
  }

  /** The packets of a run that reach the decoder. */
  ghost function Recording(codec: Codec, r: Receiver, run: seq<Happening>): seq<Bytes>
    requires Sound(codec, r)
  {
    if run == [] then [] else
    var init, h := run[..|run| - 1], run[|run| - 1];
    Recording(codec, r, init) + if Records(DeliverAll(codec, r, init), h) then [h.packet] else []
  }

  function PacketsOf(run: seq<Happening>): seq<Bytes> {
    if run == [] then [] else
    var h := run[|run| - 1];
    PacketsOf(run[..|run| - 1]) + if h.Packet? then [h.packet] else []
  }

  lemma {:induction false} FeedAllKeepsMss(s: Socket, packets: seq<Bytes>, wire: nat -> FeedEnv, at: nat)
    ensures FeedAll(s, packets, wire, at).0.kcp.mss == s.kcp.mss
    decreases packets
  {
    if packets != [] {
      FeedAllKeepsMss(FeedStep(s, packets[0], wire(at)).0, packets[1..], wire, at + 1);
    }
  }

  lemma FecStepKeepsMss(codec: Codec, log: seq<Arrival>, s: Socket, buf: Bytes, wire: nat -> FeedEnv)
    requires codec.shape.Valid() && AllFit(codec.shape, log) && KeepsAllPlaces(codec)
    ensures FecStep(codec, log, s, buf, wire).0.kcp.mss == s.kcp.mss
    ensures AllFit(codec.shape, FecStep(codec, log, s, buf, wire).2)
  {
    FeedAllKeepsMss(s, DirectPayload(buf), wire, 0);
    FeedAllKeepsMss(s, Handed(codec, log, buf), wire, 0);
  }

  // ---------- What a call feeds, whether it fails or not ----------

  /** A list is fed in order up to the first failure, and nothing behind it. */
  lemma {:induction false} FeedAllPrefix(s: Socket, packets: seq<Bytes>, wire: nat -> FeedEnv, at: nat) returns (m: nat)
    ensures m <= |packets| && FeedAll(s, packets, wire, at).0.kcp.fed == s.kcp.fed + packets[..m]
    ensures FeedAll(s, packets, wire, at).1.Ok? ==> m == |packets|
    decreases packets
  {
    if packets == [] {
      m := 0;
    } else {
      var (fed, r) := FeedStep(s, packets[0], wire(at));
      assert fed.kcp.fed == s.kcp.fed + [packets[0]];
      if r.Err? {
        m := 1;
        assert packets[..1] == [packets[0]];
      } else {
        var rest := FeedAllPrefix(fed, packets[1..], wire, at + 1);
        m := rest + 1;
        assert packets[..m] == [packets[0]] + packets[1..][..rest];
      }
    }
  }

  /**
   * What is lost when a call fails, other than the packet itself where it is not a FEC packet. Either the packet's own
   * payload failed, and the decoder knows nothing of the packet; or the decoder has recorded it, and the engine was fed
   * a prefix of what was to be handed on. If that call completed the group, the decoder has forgotten it, so only `k`
   * more packets of the group could bring the rest.
   */
  lemma FailedCallLoses(codec: Codec, r: Receiver, packet: Bytes, wire: nat -> FeedEnv) returns (m: nat)
    requires Sound(codec, r) && !Succeeds(codec, r, Packet(packet, wire))
    ensures !MarkedFec(packet) ==>
      Deliver(codec, r, Packet(packet, wire)) ==
        r.(socket := FeedStep(r.socket, packet, wire(0)).0)
    ensures MarkedFec(packet) ==>
      var after := Deliver(codec, r, Packet(packet, wire));
      var handed := Handed(codec, r.record, packet);
      && m <= |handed| && after.socket.kcp.fed == r.socket.kcp.fed + handed[..m]
      && if !Records(r, Packet(packet, wire)) then after.record == r.record && m <= |DirectPayload(packet)|
         else
           && after.record == r.record + Recorded(codec.shape, packet)
           && (Parse(codec.shape, packet).Some? &&
               Completes(codec.shape, r.record, Parse(codec.shape, packet).value) ==>
                 Held(codec.shape, after.record, Parse(codec.shape, packet).value.g) == NoShards(codec.shape.n()))
  {
    var direct, handed := DirectPayload(packet), Handed(codec, r.record, packet);
    m := 0;
    if !MarkedFec(packet) {
      return;
    }
    if !Records(r, Packet(packet, wire)) {
      m := FeedAllPrefix(r.socket, direct, wire, 0);
      assert handed[..m] == direct[..m];
    } else {
      if Answer(codec, r.record, packet).Err? {
        m := FeedAllPrefix(r.socket, direct, wire, 0);
        assert handed[..m] == direct[..m];
      } else {
        m := FeedAllPrefix(r.socket, handed, wire, 0);
      }
      if Parse(codec.shape, packet).Some? {
        var a := Parse(codec.shape, packet).value;
        HeldStep(codec.shape, r.record, a, a.g);
      }
    }
  }

  // ---------- Runs ----------

  lemma StepKeepsFed(s: Socket, ev: Event)
    requires s.kcp.mss > 0
    ensures s.kcp.fed <= Step(s, ev).kcp.fed
  {}

  lemma FecStepKeepsFed(codec: Codec, log: seq<Arrival>, s: Socket, packet: Bytes, wire: nat -> FeedEnv)
    requires codec.shape.Valid() && AllFit(codec.shape, log) && KeepsAllPlaces(codec)
    ensures s.kcp.fed <= FecStep(codec, log, s, packet, wire).0.kcp.fed
  {
    var _ := FeedAllPrefix(s, DirectPayload(packet), wire, 0);
    var _ := FeedAllPrefix(s, Handed(codec, log, packet), wire, 0);
  }

  lemma FeedKeepsFed(s: Socket, packet: Bytes, e: FeedEnv)
    ensures FeedStep(s, packet, e).0.kcp.fed == s.kcp.fed + [packet]
  {}

  lemma DeliverKeepsFed(codec: Codec, r: Receiver, h: Happening)
    requires Sound(codec, r)
    ensures r.socket.kcp.fed <= Deliver(codec, r, h).socket.kcp.fed
  {
    match h
    case Else(ev) => StepKeepsFed(r.socket, ev);
    case Packet(packet, wire) =>
      FecStepKeepsFed(codec, r.record, r.socket, packet, wire);
      FeedKeepsFed(r.socket, packet, wire(0));
  }

  /** A packet that reaches the decoder has had its own payload fed. */
  lemma RecordedIsFed(codec: Codec, r: Receiver, h: Happening)
    requires Sound(codec, r) && Records(r, h)
    ensures DataPayload(h.packet).Some? ==> DataPayload(h.packet).value in Deliver(codec, r, h).socket.kcp.fed
    ensures Deliver(codec, r, h).record == r.record + Recorded(codec.shape, h.packet)
  {
    FedAtLeast(codec, r, h);
    var fed, after := r.socket.kcp.fed + DirectPayload(h.packet), Deliver(codec, r, h).socket.kcp.fed;
    assert DataPayload(h.packet).Some? ==> fed[|fed| - 1] == DataPayload(h.packet).value == after[|fed| - 1];
  }

  lemma FedAtLeast(codec: Codec, r: Receiver, h: Happening)
    requires Sound(codec, r) && Records(r, h)
    ensures r.socket.kcp.fed + DirectPayload(h.packet) <= Deliver(codec, r, h).socket.kcp.fed
  {
    var direct := DirectPayload(h.packet);
    FeedAllFeeds(r.socket, direct, h.wire, 0);
    if Answer(codec, r.record, h.packet).Ok? {
      var recovered := Answer(codec, r.record, h.packet).value;
      FeedAllConcat(r.socket, direct, recovered, h.wire, 0);
      var _ := FeedAllPrefix(FeedAll(r.socket, direct, h.wire, 0).0, recovered, h.wire, |direct|);
    }
  }

  /** The decoder's record is the record of the packets that reach it. */
  lemma {:induction false} RecordIsRecording(codec: Codec, r: Receiver, run: seq<Happening>)
    requires Sound(codec, r) && r.record == []
    ensures DeliverAll(codec, r, run).record == Arrivals(codec.shape, Recording(codec, r, run))
  {
    if run != [] {
      var init, h := run[..|run| - 1], run[|run| - 1];
      RecordIsRecording(codec, r, init);
      var before := DeliverAll(codec, r, init);
      if Records(before, h) {
        RecordedIsFed(codec, before, h);
        ArrivalsSnoc(codec.shape, Recording(codec, r, init), h.packet);
      } else {
        assert Recording(codec, r, run) == Recording(codec, r, init);
        assert Deliver(codec, before, h).record == before.record;
      }
    }
  }

  lemma ArrivalsSnoc(shape: Shape, trace: seq<Bytes>, packet: Bytes)
    requires shape.Valid()
    ensures Arrivals(shape, trace + [packet]) == Arrivals(shape, trace) + Recorded(shape, packet)
  {
    assert (trace + [packet])[..|trace|] == trace;
  }

  /** Whatever else happens, payloads in the open of packets that reached the decoder have been fed. */
  lemma {:induction false} RecordingIsFed(codec: Codec, r: Receiver, run: seq<Happening>, packet: Bytes)
    requires Sound(codec, r) && packet in Recording(codec, r, run) && DataPayload(packet).Some?
    ensures DataPayload(packet).value in DeliverAll(codec, r, run).socket.kcp.fed
  {
    var init, h := run[..|run| - 1], run[|run| - 1];
    var before := DeliverAll(codec, r, init);
    if packet in Recording(codec, r, init) {
      RecordingIsFed(codec, r, init, packet);
      DeliverKeepsFed(codec, before, h);
    } else {
      RecordedIsFed(codec, before, h);
    }
  }

  ghost predicate FromSender(codec: Codec, log: seq<Call>, run: seq<Happening>)
    requires Lawful(codec) && ValidLog(log)
  {
    forall j :: 0 <= j < |run| && run[j].Packet? ==> run[j].packet in Sent(codec, log)
  }

  lemma {:induction false} RecordingCarries(codec: Codec, log: seq<Call>, r: Receiver, run: seq<Happening>)
    requires Lawful(codec) && ValidLog(log) && FromSender(codec, log, run) && Sound(codec, r)
    ensures Carries(codec, log, Recording(codec, r, run))
  {
    if run != [] {
      RecordingCarries(codec, log, r, run[..|run| - 1]);
      assert run[|run| - 1].Packet? ==> run[|run| - 1].packet in Sent(codec, log);
    }
  }

  /**
   * Delivery of a whole group through a socket. In any run of packets from the sender and other steps, failing or not:
   * if a call succeeds whose packet is, among the packets that reached the decoder, the `k`-th distinct one of its
   * group in time, then every payload of the group has been fed to the engine.
   */
  lemma GroupFed(codec: Codec, log: seq<Call>, r: Receiver, run: seq<Happening>, packet: Bytes, wire: nat -> FeedEnv,
                 i: nat)
    requires Lawful(codec) && ValidLog(log) && InEpoch(codec.shape, log) && Sound(codec, r) && r.record == []
    requires FromSender(codec, log, run) && packet in Sent(codec, log)
    requires Succeeds(codec, DeliverAll(codec, r, run), Packet(packet, wire))
    requires Parse(codec.shape, packet).Some? && i < codec.shape.k
    requires KthOfGroup(codec.shape, Arrivals(codec.shape, Recording(codec, r, run)), Parse(codec.shape, packet).value)
    ensures PayloadOf(codec.shape, log, Parse(codec.shape, packet).value.g, i) in
      Deliver(codec, DeliverAll(codec, r, run), Packet(packet, wire)).socket.kcp.fed
  {
    var before, trace := DeliverAll(codec, r, run), Recording(codec, r, run);
    RecordIsRecording(codec, r, run);
    RecordingCarries(codec, log, r, run);
    var t := GroupCovered(codec, log, trace, packet, i);
    if t < |trace| {
      RecordingIsFed(codec, r, run, trace[t]);
      DeliverKeepsFed(codec, before, Packet(packet, wire));
    } else {
      SentIsMarked(codec, log, packet);
      FecStepFeeds(codec, before.record, before.socket, packet, wire);
    }
  }

  /** Every call of the run succeeds. */
  ghost predicate NoFailure(codec: Codec, r: Receiver, run: seq<Happening>)
    requires Sound(codec, r)
  {
    forall j :: 0 <= j < |run| ==> SucceedsAt(codec, r, run, j)
  }

  ghost predicate SucceedsAt(codec: Codec, r: Receiver, run: seq<Happening>, j: nat)
    requires Sound(codec, r) && j < |run|
  {
    Succeeds(codec, DeliverAll(codec, r, run[..j]), run[j])
  }

  lemma SucceedsBefore(codec: Codec, r: Receiver, run: seq<Happening>, j: nat)
    requires Sound(codec, r) && j + 1 < |run| && SucceedsAt(codec, r, run, j)
    ensures SucceedsAt(codec, r, run[..|run| - 1], j)
  {
    assert run[..|run| - 1][..j] == run[..j];
  }

  lemma NoFailureBefore(codec: Codec, r: Receiver, run: seq<Happening>)
    requires Sound(codec, r) && NoFailure(codec, r, run) && run != []
    ensures NoFailure(codec, r, run[..|run| - 1])
    ensures Succeeds(codec, DeliverAll(codec, r, run[..|run| - 1]), run[|run| - 1])
  {
    assert SucceedsAt(codec, r, run, |run| - 1);
    var init := run[..|run| - 1];
    forall j | 0 <= j < |init|
      ensures SucceedsAt(codec, r, init, j)
    {
      SucceedsBefore(codec, r, run, j);
    }
  }

  /** Only FEC packets are given to `input`. */
  ghost predicate AllMarked(run: seq<Happening>) {
    forall j :: 0 <= j < |run| && run[j].Packet? ==> MarkedFec(run[j].packet)
  }

  lemma SenderMarks(codec: Codec, log: seq<Call>, run: seq<Happening>)
    requires Lawful(codec) && ValidLog(log) && FromSender(codec, log, run)
    ensures AllMarked(run)
  {
    forall j | 0 <= j < |run| && run[j].Packet?
      ensures MarkedFec(run[j].packet)
    {
      SentIsMarked(codec, log, run[j].packet);
    }
  }

  lemma {:induction false} AllRecorded(codec: Codec, r: Receiver, run: seq<Happening>)
    requires Sound(codec, r) && NoFailure(codec, r, run) && AllMarked(run)
    ensures Recording(codec, r, run) == PacketsOf(run)
    decreases |run|
  {
    if run != [] {
      NoFailureBefore(codec, r, run);
      AllRecorded(codec, r, run[..|run| - 1]);
    }
  }

  /** So when no call fails, the packets delivered decide: the `k`-th distinct one in time completes the group. */
  lemma GroupFedWithoutFailure(codec: Codec, log: seq<Call>, r: Receiver, run: seq<Happening>, packet: Bytes,
                               wire: nat -> FeedEnv, i: nat)
    requires Lawful(codec) && ValidLog(log) && InEpoch(codec.shape, log) && Sound(codec, r) && r.record == []
    requires FromSender(codec, log, run) && packet in Sent(codec, log)
    requires NoFailure(codec, r, run) && Succeeds(codec, DeliverAll(codec, r, run), Packet(packet, wire))
    requires Parse(codec.shape, packet).Some? && i < codec.shape.k
    requires KthOfGroup(codec.shape, Arrivals(codec.shape, PacketsOf(run)), Parse(codec.shape, packet).value)
    ensures PayloadOf(codec.shape, log, Parse(codec.shape, packet).value.g, i) in
      Deliver(codec, DeliverAll(codec, r, run), Packet(packet, wire)).socket.kcp.fed
  {
    SenderMarks(codec, log, run);
    AllRecorded(codec, r, run);
    GroupFed(codec, log, r, run, packet, wire, i);
  }
}
