/** When a payload of a group does not reach the engine: the other half of what `FecDelivery` proves. */
module FecLoss {
  import opened Base
  import opened FecFormat
  import opened ErasureCode
  import opened FecTranscript
  import opened FecReception
  import opened FecBounds
  import opened FecChannel
  import opened FecRecovery
  import opened FecWire
  import opened FecGroups
  import opened FecRepeats
  import opened KcpContract
  import opened SocketModel
  import opened KcpSockets
  import opened FecDelivery

  /** Nothing is fed past the FEC entry point. */
  ghost predicate OnlyFec(run: seq<Happening>) {
    forall t :: 0 <= t < |run| && run[t].Else? ==> !run[t].ev.Feed?
  }

  /** `x` is the packet's own payload. */
  predicate OwnPayload(h: Happening, x: Bytes) {
    h.Packet? && DataPayload(h.packet) == Some(x)
  }

  /** The decoder sees the packet and answers with `x`, among others. */
  ghost predicate AnswersWith(codec: Codec, r: Receiver, h: Happening, x: Bytes)
    requires Sound(codec, r)
  {
    && Records(r, h) && Answer(codec, r.record, h.packet).Ok?
    && x in Answer(codec, r.record, h.packet).value
  }

  lemma StepFeedsNothing(s: Socket, ev: Event)
    requires s.kcp.mss > 0 && !ev.Feed?
    ensures Step(s, ev).kcp.fed == s.kcp.fed
  {}

  /** What one packet newly feeds is its own payload or comes from the decoder. */
  lemma DeliverFeeds(codec: Codec, r: Receiver, h: Happening, x: Bytes)
    requires Sound(codec, r) && h.Packet? && MarkedFec(h.packet) && x in Deliver(codec, r, h).socket.kcp.fed
    ensures x in r.socket.kcp.fed || OwnPayload(h, x) || AnswersWith(codec, r, h, x)
  {
    var direct := DirectPayload(h.packet);
    if Records(r, h) && Answer(codec, r.record, h.packet).Ok? {
      var handed := Handed(codec, r.record, h.packet);
      var m := FeedAllPrefix(r.socket, handed, h.wire, 0);
      assert x in r.socket.kcp.fed || x in handed[..m];
    } else {
      var m := FeedAllPrefix(r.socket, direct, h.wire, 0);
      assert x in r.socket.kcp.fed || x in direct[..m];
    }
  }

  lemma Unroll(codec: Codec, r: Receiver, run: seq<Happening>, t: nat)
    requires Sound(codec, r) && t < |run|
    ensures DeliverAll(codec, r, run[..t + 1]) == Deliver(codec, DeliverAll(codec, r, run[..t]), run[t])
  {
    assert run[..t + 1][..t] == run[..t];
  }

  /** Whatever has been fed was fed by some packet. */
  lemma {:induction false} FedBySome(codec: Codec, r: Receiver, run: seq<Happening>, x: Bytes, end: nat)
      returns (t: nat)
    requires Sound(codec, r) && OnlyFec(run) && AllMarked(run) && end <= |run|
    requires x !in r.socket.kcp.fed && x in DeliverAll(codec, r, run[..end]).socket.kcp.fed
    ensures t < end && (OwnPayload(run[t], x) || AnswersWith(codec, DeliverAll(codec, r, run[..t]), run[t], x))
    decreases end
  {
    t := end - 1;
    Unroll(codec, r, run, t);
    var before := DeliverAll(codec, r, run[..t]);
    if x in before.socket.kcp.fed {
      t := FedBySome(codec, r, run, x, t);
    } else if run[t].Packet? {
      DeliverFeeds(codec, before, run[t], x);
    } else {
      StepFeedsNothing(before.socket, run[t].ev);
    }
  }

  // ---------- Only by its own packet or by a completed group ----------

  /** The packet of the `m`-th payload itself. */
  ghost predicate OwnAt(codec: Codec, run: seq<Happening>, m: nat, t: nat)
    requires codec.shape.Valid()
  {
    && t < |run| && run[t].Packet? && Parse(codec.shape, run[t].packet).Some?
    && Parse(codec.shape, run[t].packet).value.g == GroupOf(codec.shape, m)
    && Parse(codec.shape, run[t].packet).value.i == SlotOf(codec.shape, m)
  }

  /** A packet that reaches the decoder is the `k`-th distinct one of group `g` to do so, in time. */
  ghost predicate CompletedAt(codec: Codec, r: Receiver, run: seq<Happening>, g: nat, t: nat)
    requires Sound(codec, r)
  {
    && t < |run| && Records(DeliverAll(codec, r, run[..t]), run[t]) && Parse(codec.shape, run[t].packet).Some?
    && Parse(codec.shape, run[t].packet).value.g == g
    && KthOfGroup(codec.shape, Arrivals(codec.shape, Recording(codec, r, run[..t])),
                  Parse(codec.shape, run[t].packet).value)
  }

  lemma RecordingSnoc(codec: Codec, r: Receiver, run: seq<Happening>, t: nat)
    requires Sound(codec, r) && t < |run|
    ensures Recording(codec, r, run[..t + 1]) == Recording(codec, r, run[..t]) +
      if Records(DeliverAll(codec, r, run[..t]), run[t]) then [run[t].packet] else []
  {
    assert run[..t + 1][..t] == run[..t];
  }

  /** The `j`-th packet that reaches the decoder, found in the run. */
  lemma {:induction false} RecordedWhen(codec: Codec, r: Receiver, run: seq<Happening>, end: nat, j: nat)
      returns (t: nat)
    requires Sound(codec, r) && end <= |run| && j < |Recording(codec, r, run[..end])|
    ensures t < end && Records(DeliverAll(codec, r, run[..t]), run[t])
    ensures run[t].packet == Recording(codec, r, run[..end])[j]
    ensures Recording(codec, r, run[..t]) == Recording(codec, r, run[..end])[..j]
    decreases end
  {
    t := end - 1;
    RecordingSnoc(codec, r, run, t);
    var before := Recording(codec, r, run[..t]);
    if j < |before| {
      t := RecordedWhen(codec, r, run, t, j);
    } else {
      assert Recording(codec, r, run[..end])[..j] == before;
    }
  }

  /** If the decoder completes a group somewhere in a run, some packet was its `k`-th distinct one in time. */
  lemma CompletionInRun(codec: Codec, log: seq<Call>, r: Receiver, run: seq<Happening>, t: nat) returns (s: nat)
    requires Lawful(codec) && ValidLog(log) && InEpoch(codec.shape, log) && FromSender(codec, log, run)
    requires Sound(codec, r)
    requires t < |run| && Records(DeliverAll(codec, r, run[..t]), run[t]) && Parse(codec.shape, run[t].packet).Some?
    requires Completes(codec.shape, Arrivals(codec.shape, Recording(codec, r, run[..t])),
                       Parse(codec.shape, run[t].packet).value)
    ensures CompletedAt(codec, r, run, Parse(codec.shape, run[t].packet).value.g, s)
  {
    var trace, a := Recording(codec, r, run[..t]), Parse(codec.shape, run[t].packet).value;
    var after := trace + [run[t].packet];
    RecordingSnoc(codec, r, run, t);
    ArrivalsSnoc(codec.shape, trace, run[t].packet);
    assert Arrivals(codec.shape, after) == Arrivals(codec.shape, trace) + [a];
    RecordingCarries(codec, log, r, run[..t + 1]);
    CarriedInRange(codec, log, after);
    ArrivalsAligned(codec.shape, after);
    var j := CompletedInTime(codec.shape, Arrivals(codec.shape, trace), a);
    ArrivalsPrefix(codec.shape, after, j);
    s := RecordedWhen(codec, r, run, t + 1, j);
  }

  /** A payload that the decoder answers with belongs to an accepted slot of a group it completes then. */
  lemma AnswerSlot(codec: Codec, log: seq<Call>, trace: seq<Bytes>, packet: Bytes, x: Bytes) returns (i: nat)
    requires Lawful(codec) && ValidLog(log) && InEpoch(codec.shape, log) && Carries(codec, log, trace + [packet])
    requires Answer(codec, Arrivals(codec.shape, trace), packet).Ok?
    requires x in Answer(codec, Arrivals(codec.shape, trace), packet).value
    ensures Parse(codec.shape, packet).Some?
    ensures Completes(codec.shape, Arrivals(codec.shape, trace), Parse(codec.shape, packet).value)
    ensures var g := Parse(codec.shape, packet).value.g;
      InLog(codec.shape, log, g, i) && x == PayloadOf(codec.shape, log, g, i)
  {
    var arrivals, a := Arrivals(codec.shape, trace), Parse(codec.shape, packet).value;
    RecoverySound(codec, log, trace, packet);
    var full := Held(codec.shape, arrivals, a.g)[a.i := Some(a.body)];
    var missing := Missing(full, codec.shape.k);
    var j :| 0 <= j < |missing| && PayloadsOf(codec.shape, log, a.g, missing)[j] == x;
    i := missing[j];
    assert i in missing;
    MissingAreHoles(full, codec.shape.k);
    CompletedIsAccepted(codec, log, trace, packet, i);
    CompleteInLog(codec.shape, log, a.g, i);
  }

  lemma CompletedIsAccepted(codec: Codec, log: seq<Call>, trace: seq<Bytes>, packet: Bytes, hole: nat)
    requires Lawful(codec) && ValidLog(log) && InEpoch(codec.shape, log) && Carries(codec, log, trace + [packet])
    requires Parse(codec.shape, packet).Some?
    requires var arrivals, a := Arrivals(codec.shape, trace), Parse(codec.shape, packet).value;
      var full := Held(codec.shape, arrivals, a.g)[a.i := Some(a.body)];
      Completes(codec.shape, arrivals, a) && hole < codec.shape.k && full[hole].None?
    ensures Complete(codec.shape, log, Parse(codec.shape, packet).value.g)
  {
    var arrivals, a := Arrivals(codec.shape, trace), Parse(codec.shape, packet).value;
    assert forall j :: 0 <= j < |trace| ==> (trace + [packet])[j] == trace[j];
    assert (trace + [packet])[|trace|] == packet;
    ArrivalsGenuine(codec, log, trace);
    SentGenuine(codec, log, packet);
    HeldGenuine(codec, log, arrivals, a.g);
    AdmitGenuine(codec, log, Held(codec.shape, arrivals, a.g), a);
    PaddingAgrees(codec, log, a.g, Held(codec.shape, arrivals, a.g)[a.i := Some(a.body)], hole);
  }

  lemma ToDecoder(codec: Codec, log: seq<Call>, r: Receiver, run: seq<Happening>, t: nat)
    requires Lawful(codec) && ValidLog(log) && FromSender(codec, log, run) && Sound(codec, r) && r.record == []
    requires t < |run| && run[t].Packet?
    ensures DeliverAll(codec, r, run[..t]).record == Arrivals(codec.shape, Recording(codec, r, run[..t]))
    ensures Carries(codec, log, Recording(codec, r, run[..t]) + [run[t].packet])
  {
    RecordIsRecording(codec, r, run[..t]);
    RecordingCarries(codec, log, r, run[..t]);
  }

  /**
   * In any run, failing or not, a payload that occurs once is fed only if its own packet was delivered or its group
   * was completed: the `k`-th distinct packet of it to reach the decoder did so in time.
   */
  lemma FedOnlyIf(codec: Codec, log: seq<Call>, r: Receiver, run: seq<Happening>, m: nat) returns (t: nat)
    requires Lawful(codec) && ValidLog(log) && InEpoch(codec.shape, log) && Once(log, m)
    requires FromSender(codec, log, run) && OnlyFec(run)
    requires Sound(codec, r) && r.record == [] && r.socket.kcp.fed == []
    requires log[m].payload in DeliverAll(codec, r, run).socket.kcp.fed
    ensures OwnAt(codec, run, m, t) || CompletedAt(codec, r, run, GroupOf(codec.shape, m), t)
  {
    var x := log[m].payload;
    assert run[..|run|] == run;
    SenderMarks(codec, log, run);
    t := FedBySome(codec, r, run, x, |run|);
    if OwnPayload(run[t], x) {
      OpenSlot(codec, log, run[t].packet);
      var a := Parse(codec.shape, run[t].packet).value;
      OnlySlot(codec.shape, log, m, a.g, a.i);
    } else {
      ToDecoder(codec, log, r, run, t);
      var i := AnswerSlot(codec, log, Recording(codec, r, run[..t]), run[t].packet, x);
      OnlySlot(codec.shape, log, m, Parse(codec.shape, run[t].packet).value.g, i);
      t := CompletionInRun(codec, log, r, run, t);
    }
  }

  // ---------- And whenever ----------

  /** A call that fails does so on the packet's own payload. */
  ghost predicate OnlyOwnFails(codec: Codec, r: Receiver, run: seq<Happening>)
    requires Sound(codec, r)
  {
    forall t :: 0 <= t < |run| ==> OwnFailsAt(codec, r, run, t)
  }

  ghost predicate OwnFailsAt(codec: Codec, r: Receiver, run: seq<Happening>, t: nat)
    requires Sound(codec, r) && t < |run|
  {
    Records(DeliverAll(codec, r, run[..t]), run[t]) ==> Succeeds(codec, DeliverAll(codec, r, run[..t]), run[t])
  }

  lemma StaysIn(a: seq<Bytes>, b: seq<Bytes>, x: Bytes)
    requires a <= b && x in a
    ensures x in b
  {
    var j :| 0 <= j < |a| && a[j] == x;
    assert b[j] == x;
  }

  lemma {:induction false} FedStays(codec: Codec, r: Receiver, run: seq<Happening>, t: nat, end: nat, x: Bytes)
    requires Sound(codec, r) && t <= end <= |run| && x in DeliverAll(codec, r, run[..t]).socket.kcp.fed
    ensures x in DeliverAll(codec, r, run[..end]).socket.kcp.fed
    decreases end - t
  {
    if t < end {
      FedOneMore(codec, r, run, t, x);
      FedStays(codec, r, run, t + 1, end, x);
    }
  }

  lemma FedOneMore(codec: Codec, r: Receiver, run: seq<Happening>, t: nat, x: Bytes)
    requires Sound(codec, r) && t < |run| && x in DeliverAll(codec, r, run[..t]).socket.kcp.fed
    ensures x in DeliverAll(codec, r, run[..t + 1]).socket.kcp.fed
  {
    var before := DeliverAll(codec, r, run[..t]);
    Unroll(codec, r, run, t);
    DeliverKeepsFed(codec, before, run[t]);
    StaysIn(before.socket.kcp.fed, Deliver(codec, before, run[t]).socket.kcp.fed, x);
  }

  lemma FedByEnd(codec: Codec, r: Receiver, run: seq<Happening>, t: nat, x: Bytes)
    requires Sound(codec, r) && t < |run|
    requires x in Deliver(codec, DeliverAll(codec, r, run[..t]), run[t]).socket.kcp.fed
    ensures x in DeliverAll(codec, r, run).socket.kcp.fed
  {
    Unroll(codec, r, run, t);
    FedStays(codec, r, run, t + 1, |run|, x);
    assert run[..|run|] == run;
  }

  /** A packet's own payload is fed even if it fails. */
  lemma OwnIsFed(codec: Codec, r: Receiver, h: Happening)
    requires Sound(codec, r) && h.Packet? && DataPayload(h.packet).Some?
    ensures DataPayload(h.packet).value in Deliver(codec, r, h).socket.kcp.fed
  {
    FlagBytes(h.packet);
    if Records(r, h) {
      RecordedIsFed(codec, r, h);
    } else {
      FeedAllOne(r.socket, DataPayload(h.packet).value, h.wire, 0);
    }
  }

  lemma OwnIsFedInRun(codec: Codec, log: seq<Call>, r: Receiver, run: seq<Happening>, m: nat, t: nat)
    requires Lawful(codec) && ValidLog(log) && InEpoch(codec.shape, log) && m < |log|
    requires FromSender(codec, log, run) && Sound(codec, r) && OwnAt(codec, run, m, t)
    ensures log[m].payload in DeliverAll(codec, r, run).socket.kcp.fed
  {
    DataSlotIsDirect(codec, log, run[t].packet);
    CallPayload(codec.shape, log, m);
    OwnIsFed(codec, DeliverAll(codec, r, run[..t]), run[t]);
    FedByEnd(codec, r, run, t, log[m].payload);
  }

  lemma CompletedIsFedInRun(codec: Codec, log: seq<Call>, r: Receiver, run: seq<Happening>, m: nat, t: nat)
    requires Lawful(codec) && ValidLog(log) && InEpoch(codec.shape, log) && m < |log|
    requires FromSender(codec, log, run) && Sound(codec, r) && r.record == [] && OnlyOwnFails(codec, r, run)
    requires CompletedAt(codec, r, run, GroupOf(codec.shape, m), t)
    ensures log[m].payload in DeliverAll(codec, r, run).socket.kcp.fed
  {
    assert OwnFailsAt(codec, r, run, t);
    GroupFed(codec, log, r, run[..t], run[t].packet, run[t].wire, SlotOf(codec.shape, m));
    CallPayload(codec.shape, log, m);
    assert run[t] == Packet(run[t].packet, run[t].wire);
    FedByEnd(codec, r, run, t, log[m].payload);
  }

  /**
   * Exactly which payloads reach the engine in a run in which only packets' own payloads fail: one that occurs once is
   * fed if and only if its own packet was delivered or its group was completed.
   */
  lemma FedExactly(codec: Codec, log: seq<Call>, r: Receiver, run: seq<Happening>, m: nat)
    requires Lawful(codec) && ValidLog(log) && InEpoch(codec.shape, log) && Once(log, m)
    requires FromSender(codec, log, run) && OnlyFec(run)
    requires Sound(codec, r) && r.record == [] && r.socket.kcp.fed == [] && OnlyOwnFails(codec, r, run)
    ensures log[m].payload in DeliverAll(codec, r, run).socket.kcp.fed <==>
      exists t: nat :: OwnAt(codec, run, m, t) || CompletedAt(codec, r, run, GroupOf(codec.shape, m), t)
  {
    if log[m].payload in DeliverAll(codec, r, run).socket.kcp.fed {
      var _ := FedOnlyIf(codec, log, r, run, m);
    }
    if t: nat :| OwnAt(codec, run, m, t) || CompletedAt(codec, r, run, GroupOf(codec.shape, m), t) {
      if OwnAt(codec, run, m, t) {
        OwnIsFedInRun(codec, log, r, run, m, t);
      } else {
        CompletedIsFedInRun(codec, log, r, run, m, t);
      }
    }
  }

  // ---------- What failures cost ----------

  lemma {:induction false} ArrivedGrows(shape: Shape, trace: seq<Bytes>, more: seq<Bytes>, g: nat)
    requires shape.Valid()
    ensures Arrived(Arrivals(shape, trace), g) <= Arrived(Arrivals(shape, trace + more), g)
    decreases |more|
  {
    if more == [] {
      assert trace + more == trace;
    } else {
      var init, last := more[..|more| - 1], more[|more| - 1];
      ArrivedGrows(shape, trace, init, g);
      assert (trace + init) + [last] == trace + more;
      ArrivalsSnoc(shape, trace + init, last);
      if Parse(shape, last).Some? {
        ArrivedStep(Arrivals(shape, trace + init), Parse(shape, last).value, g);
      } else {
        assert Recorded(shape, last) == [];
        assert Arrivals(shape, trace + more) == Arrivals(shape, trace + init);
      }
    }
  }

  lemma {:induction false} RecordingGrows(codec: Codec, r: Receiver, run: seq<Happening>, t: nat, end: nat)
    requires Sound(codec, r) && t <= end <= |run|
    ensures Recording(codec, r, run[..t]) <= Recording(codec, r, run[..end])
    decreases end - t
  {
    if t < end {
      RecordingSnoc(codec, r, run, t);
      RecordingGrows(codec, r, run, t + 1, end);
    }
  }

  lemma ArrivedPrefix(shape: Shape, trace: seq<Bytes>, longer: seq<Bytes>, g: nat)
    requires shape.Valid() && trace <= longer
    ensures |Arrived(Arrivals(shape, trace), g)| <= |Arrived(Arrivals(shape, longer), g)|
  {
    assert trace + longer[|trace|..] == longer;
    ArrivedGrows(shape, trace, longer[|trace|..], g);
    SubsetSize(Arrived(Arrivals(shape, trace), g), Arrived(Arrivals(shape, longer), g));
  }

  lemma KthMakesEnough(shape: Shape, trace: seq<Bytes>, packet: Bytes)
    requires shape.Valid() && Parse(shape, packet).Some?
    requires KthOfGroup(shape, Arrivals(shape, trace), Parse(shape, packet).value)
    ensures |Arrived(Arrivals(shape, trace + [packet]), Parse(shape, packet).value.g)| == shape.k
  {
    ArrivalsSnoc(shape, trace, packet);
    ArrivedStep(Arrivals(shape, trace), Parse(shape, packet).value, Parse(shape, packet).value.g);
  }

  /** A group completed in a run has had `k` distinct packets reach the decoder. */
  lemma CompletedHasEnough(codec: Codec, r: Receiver, run: seq<Happening>, g: nat, t: nat)
    requires Sound(codec, r) && CompletedAt(codec, r, run, g, t)
    ensures |Arrived(Arrivals(codec.shape, Recording(codec, r, run)), g)| >= codec.shape.k
  {
    KthMakesEnough(codec.shape, Recording(codec, r, run[..t]), run[t].packet);
    RecordingSnoc(codec, r, run, t);
    RecordingGrows(codec, r, run, t + 1, |run|);
    assert run[..|run|] == run;
    ArrivedPrefix(codec.shape, Recording(codec, r, run[..t + 1]), Recording(codec, r, run), g);
  }

  /** With fewer than `k` distinct packets at the decoder, a payload whose own packet is not delivered is unfed. */
  lemma TooFewLeaveUnfed(codec: Codec, log: seq<Call>, r: Receiver, run: seq<Happening>, m: nat)
    requires Lawful(codec) && ValidLog(log) && InEpoch(codec.shape, log) && Once(log, m)
    requires FromSender(codec, log, run) && OnlyFec(run)
    requires Sound(codec, r) && r.record == [] && r.socket.kcp.fed == []
    requires forall t: nat :: !OwnAt(codec, run, m, t)
    requires |Arrived(Arrivals(codec.shape, Recording(codec, r, run)), GroupOf(codec.shape, m))| < codec.shape.k
    ensures log[m].payload !in DeliverAll(codec, r, run).socket.kcp.fed
  {
    if log[m].payload in DeliverAll(codec, r, run).socket.kcp.fed {
      var t := FedOnlyIf(codec, log, r, run, m);
      CompletedHasEnough(codec, r, run, GroupOf(codec.shape, m), t);
    }
  }

  /** The engine refuses the packet that is fed, or takes it, and nothing else happens. */
  function Feeding(taken: bool): nat -> FeedEnv {
    var outcome := if taken then Taken else Refused(OtherFailure);
    (at: nat) => FeedEnv(InputEffect(outcome, 0, 32, [], None), 0, true)
  }

  lemma {:induction false} TakenGoesThrough(s: Socket, packets: seq<Bytes>, at: nat)
    ensures FeedAll(s, packets, Feeding(true), at).1.Ok?
    decreases packets
  {
    if packets != [] {
      TakenGoesThrough(FeedStep(s, packets[0], Feeding(true)(at)).0, packets[1..], at + 1);
    }
  }

  /** All data packets of a group but the last, of which the first is refused, and then its first parity packet. */
  ghost function OneRefused(codec: Codec, log: seq<Call>, g: nat): (run: seq<Happening>)
    requires Lawful(codec) && ValidLog(log) && Complete(codec.shape, log, g) && codec.shape.k >= 2
    ensures |run| == codec.shape.k
  {
    seq(codec.shape.k, t requires 0 <= t < codec.shape.k =>
      Packet(SlotPacket(codec, log, g, SlotAt(codec.shape.k, t)), Feeding(t != 0)))
  }

  function SlotAt(k: nat, t: nat): nat {
    if t + 1 < k then t else k
  }

  lemma RefusedPayload(r: Receiver, packet: Bytes)
    requires DataPayload(packet).Some?
    ensures !Records(r, Packet(packet, Feeding(false)))
  {
    FeedAllOne(r.socket, DataPayload(packet).value, Feeding(false), 0);
  }

  lemma DataSlotIsOpen(codec: Codec, log: seq<Call>, g: nat, i: nat)
    requires Lawful(codec) && ValidLog(log) && InEpoch(codec.shape, log)
    requires GroupSent(codec.shape, log, g) && i < codec.shape.k
    ensures DataPayload(SlotPacket(codec, log, g, i)).Some?
  {
    GroupInEpoch(codec.shape, log, g);
    SlotPacketSent(codec, log, g, i);
    SlotPacketParsed(codec, log, g, i);
    DataSlotIsDirect(codec, log, SlotPacket(codec, log, g, i));
  }

  lemma RefusedIsNotRecorded(codec: Codec, log: seq<Call>, r: Receiver, g: nat)
    requires Lawful(codec) && ValidLog(log) && InEpoch(codec.shape, log) && codec.shape.k >= 2
    requires GroupSent(codec.shape, log, g) && Sound(codec, r)
    ensures !Records(r, OneRefused(codec, log, g)[0])
  {
    DataSlotIsOpen(codec, log, g, 0);
    RefusedPayload(r, SlotPacket(codec, log, g, 0));
  }

  lemma OneRefusedSent(codec: Codec, log: seq<Call>, g: nat, t: nat)
    requires Lawful(codec) && ValidLog(log) && InEpoch(codec.shape, log) && codec.shape.k >= 2
    requires GroupSent(codec.shape, log, g) && t < codec.shape.k
    ensures OneRefused(codec, log, g)[t].packet in Sent(codec, log)
    ensures Parse(codec.shape, OneRefused(codec, log, g)[t].packet) ==
      Some(Arrival(g, SlotAt(codec.shape.k, t), SlotBody(codec, log, g, SlotAt(codec.shape.k, t))))
  {
    GroupInEpoch(codec.shape, log, g);
    SlotPacketSent(codec, log, g, SlotAt(codec.shape.k, t));
    SlotPacketParsed(codec, log, g, SlotAt(codec.shape.k, t));
  }

  /** Every slot that reached the decoder did so with some packet of the run. */
  lemma WhichRecorded(codec: Codec, log: seq<Call>, r: Receiver, run: seq<Happening>, g: nat, x: nat) returns (t: nat)
    requires Lawful(codec) && ValidLog(log) && InEpoch(codec.shape, log) && FromSender(codec, log, run)
    requires Sound(codec, r)
    requires x in Arrived(Arrivals(codec.shape, Recording(codec, r, run)), g)
    ensures t < |run| && Records(DeliverAll(codec, r, run[..t]), run[t]) && Parse(codec.shape, run[t].packet).Some?
    ensures Parse(codec.shape, run[t].packet).value.i == x
  {
    var trace := Recording(codec, r, run);
    RecordingCarries(codec, log, r, run);
    CarriedInRange(codec, log, trace);
    ArrivalsAligned(codec.shape, trace);
    var j :| 0 <= j < |Arrivals(codec.shape, trace)| && Arrivals(codec.shape, trace)[j].i == x;
    assert run[..|run|] == run;
    t := RecordedWhen(codec, r, run, |run|, j);
  }

  /** Of that run the slots that reach the decoder are among `1..k-1` and the parity slot `k`. */
  lemma RecordedSlots(codec: Codec, log: seq<Call>, r: Receiver, g: nat, x: nat)
    requires Lawful(codec) && ValidLog(log) && InEpoch(codec.shape, log) && codec.shape.k >= 2
    requires GroupSent(codec.shape, log, g) && Sound(codec, r)
    requires FromSender(codec, log, OneRefused(codec, log, g))
    requires x in Arrived(Arrivals(codec.shape, Recording(codec, r, OneRefused(codec, log, g))), g)
    ensures 1 <= x < codec.shape.k - 1 || x == codec.shape.k
  {
    var run := OneRefused(codec, log, g);
    var t := WhichRecorded(codec, log, r, run, g, x);
    OneRefusedSent(codec, log, g, t);
    if t == 0 {
      assert run[..0] == [];
      RefusedIsNotRecorded(codec, log, r, g);
      assert false;
    }
  }

  lemma FewSlots(s: set<nat>, k: nat)
    requires k >= 2 && forall x :: x in s ==> 1 <= x < k - 1 || x == k
    ensures |s| < k
  {
    RangeSize(s - {k}, 1, k - 1);
    assert s <= (s - {k}) + {k};
    SubsetSize(s, (s - {k}) + {k});
  }

  lemma OneRefusedFromSender(codec: Codec, log: seq<Call>, g: nat)
    requires Lawful(codec) && ValidLog(log) && InEpoch(codec.shape, log) && codec.shape.k >= 2
    requires GroupSent(codec.shape, log, g)
    ensures FromSender(codec, log, OneRefused(codec, log, g)) && OnlyFec(OneRefused(codec, log, g))
  {
    var run := OneRefused(codec, log, g);
    forall t | 0 <= t < |run|
      ensures run[t].packet in Sent(codec, log)
    {
      OneRefusedSent(codec, log, g, t);
    }
  }

  lemma LastIsUnfed(codec: Codec, log: seq<Call>, r: Receiver, m: nat, g: nat)
    requires Lawful(codec) && ValidLog(log) && InEpoch(codec.shape, log) && codec.shape.k >= 2 && Once(log, m)
    requires g == GroupOf(codec.shape, m) && SlotOf(codec.shape, m) == codec.shape.k - 1
    requires GroupSent(codec.shape, log, g) && Sound(codec, r) && r.record == [] && r.socket.kcp.fed == []
    ensures log[m].payload !in DeliverAll(codec, r, OneRefused(codec, log, g)).socket.kcp.fed
  {
    var run := OneRefused(codec, log, g);
    OneRefusedFromSender(codec, log, g);
    forall x | x in Arrived(Arrivals(codec.shape, Recording(codec, r, run)), g)
      ensures 1 <= x < codec.shape.k - 1 || x == codec.shape.k
    {
      RecordedSlots(codec, log, r, g, x);
    }
    FewSlots(Arrived(Arrivals(codec.shape, Recording(codec, r, run)), g), codec.shape.k);
    forall t: nat
      ensures !OwnAt(codec, run, m, t)
    {
      if t < |run| {
        OneRefusedSent(codec, log, g, t);
      }
    }
    TooFewLeaveUnfed(codec, log, r, run, m);
  }

  function Upto(t: nat): (slots: seq<nat>)
    ensures |slots| == t
  {
    seq(t, j requires 0 <= j < t => j)
  }

  lemma {:induction false} AllPackets(run: seq<Happening>)
    requires forall t :: 0 <= t < |run| ==> run[t].Packet?
    ensures |PacketsOf(run)| == |run| && forall t :: 0 <= t < |run| ==> PacketsOf(run)[t] == run[t].packet
    decreases |run|
  {
    if run != [] {
      AllPackets(run[..|run| - 1]);
    }
  }

  /** All packets of that run are delivered. */
  lemma OneRefusedDelivers(codec: Codec, log: seq<Call>, g: nat, run: seq<Happening>, last: nat)
    requires Lawful(codec) && ValidLog(log) && InEpoch(codec.shape, log) && codec.shape.k >= 2
    requires GroupSent(codec.shape, log, g) && last == codec.shape.k - 1 && run == OneRefused(codec, log, g)[..last]
    ensures OfSlots(Arrivals(codec.shape, PacketsOf(run)), g, Upto(last))
  {
    var trace := PacketsOf(run);
    AllPackets(run);
    forall t | 0 <= t < |run|
      ensures Parse(codec.shape, trace[t]).Some? && Parse(codec.shape, trace[t]).value.g == g
      ensures Parse(codec.shape, trace[t]).value.i == t
    {
      OneRefusedSent(codec, log, g, t);
    }
    ArrivalsAligned(codec.shape, trace);
  }

  lemma LastIsKth(shape: Shape, arrivals: seq<Arrival>, g: nat, a: Arrival)
    requires shape.k >= 2 && OfSlots(arrivals, g, Upto(shape.k - 1)) && a.g == g && a.i == shape.k
    ensures KthOfGroup(shape, arrivals, a)
  {
    ArrivedOfSlots(arrivals, g, Upto(shape.k - 1));
  }

  lemma ParityGoesThrough(codec: Codec, log: seq<Call>, r: Receiver, run: seq<Happening>, packet: Bytes)
    requires Lawful(codec) && ValidLog(log) && InEpoch(codec.shape, log) && FromSender(codec, log, run)
    requires Sound(codec, r) && r.record == [] && packet in Sent(codec, log)
    ensures Succeeds(codec, DeliverAll(codec, r, run), Packet(packet, Feeding(true)))
  {
    var before, trace := DeliverAll(codec, r, run), Recording(codec, r, run);
    RecordIsRecording(codec, r, run);
    RecordingCarries(codec, log, r, run);
    RecoverySound(codec, log, trace, packet);
    SentIsMarked(codec, log, packet);
    TakenGoesThrough(before.socket, DirectPayload(packet), 0);
    TakenGoesThrough(before.socket, Handed(codec, before.record, packet), 0);
  }

  /** Going by the packets delivered, its last call completes the group; and it succeeds. */
  lemma LastCallCompletes(codec: Codec, log: seq<Call>, r: Receiver, g: nat, run: seq<Happening>, last: nat)
    requires Lawful(codec) && ValidLog(log) && InEpoch(codec.shape, log) && codec.shape.k >= 2
    requires GroupSent(codec.shape, log, g) && last == codec.shape.k - 1 && run == OneRefused(codec, log, g)
    requires FromSender(codec, log, run) && Sound(codec, r) && r.record == []
    ensures Succeeds(codec, DeliverAll(codec, r, run[..last]), run[last])
    ensures Parse(codec.shape, run[last].packet).Some? && Parse(codec.shape, run[last].packet).value.g == g
    ensures KthOfGroup(codec.shape, Arrivals(codec.shape, PacketsOf(run[..last])),
                       Parse(codec.shape, run[last].packet).value)
  {
    OneRefusedSent(codec, log, g, last);
    OneRefusedDelivers(codec, log, g, run[..last], last);
    LastIsKth(codec.shape, Arrivals(codec.shape, PacketsOf(run[..last])), g,
              Parse(codec.shape, run[last].packet).value);
    ParityGoesThrough(codec, log, r, run[..last], run[last].packet);
  }

  /**
   * Failures do matter, for every code with two data shards or more. Of a group the data packets but the last are
   * delivered, the first of which is refused, and then parity. Those are `k` distinct packets in time and the last call
   * succeeds, yet the last payload of the group is not fed to the engine.
   */
  lemma FailureLoses(codec: Codec, log: seq<Call>, r: Receiver, m: nat) returns (run: seq<Happening>)
    requires Lawful(codec) && ValidLog(log) && InEpoch(codec.shape, log) && codec.shape.k >= 2 && Once(log, m)
    requires SlotOf(codec.shape, m) == codec.shape.k - 1 && GroupSent(codec.shape, log, GroupOf(codec.shape, m))
    requires Sound(codec, r) && r.record == [] && r.socket.kcp.fed == []
    ensures FromSender(codec, log, run) && OnlyFec(run) && |run| == codec.shape.k
    ensures var last := codec.shape.k - 1;
      && run[last].Packet? && Succeeds(codec, DeliverAll(codec, r, run[..last]), run[last])
      && Parse(codec.shape, run[last].packet).Some?
      && Parse(codec.shape, run[last].packet).value.g == GroupOf(codec.shape, m)
      && KthOfGroup(codec.shape, Arrivals(codec.shape, PacketsOf(run[..last])),
                    Parse(codec.shape, run[last].packet).value)
    ensures log[m].payload !in DeliverAll(codec, r, run).socket.kcp.fed
  {
    run := OneRefused(codec, log, GroupOf(codec.shape, m));
    OneRefusedFromSender(codec, log, GroupOf(codec.shape, m));
    LastCallCompletes(codec, log, r, GroupOf(codec.shape, m), run, codec.shape.k - 1);
    LastIsUnfed(codec, log, r, m, GroupOf(codec.shape, m));
  }
}
