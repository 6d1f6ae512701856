/** When a lossy channel delivers enough of a group in time, the receiver ends up with all of it, and only then. */
module FecRecovery {
  import opened Base
  import opened Arithmetic
  import opened FecFormat
  import opened ErasureCode
  import opened FecTranscript
  import opened FecReception
  import opened FecBounds
  import opened FecChannel

  function Filled(slots: Slots): set<nat> {
    set i | 0 <= i < |slots| && slots[i].Some?
  }

  lemma {:induction false} CountIsCardinality(slots: Slots)
    ensures Count(slots) == |Filled(slots)|
  {
    if slots != [] {
      var last := |slots| - 1;
      var init := slots[..last];
      CountIsCardinality(init);
      assert forall i :: 0 <= i < last ==> init[i] == slots[i];
      assert Filled(slots) == Filled(init) + if slots[last].Some? then {last} else {};
    }
  }

  /** The numbers below `k` that are not in `present`, in order. */
  function AbsentBelow(k: nat, present: set<nat>): seq<nat> {
    if k == 0 then [] else AbsentBelow(k - 1, present) + if k - 1 in present then [] else [k - 1]
  }

  lemma {:induction false} MissingIsAbsent(slots: Slots, k: nat)
    requires k <= |slots|
    ensures Missing(slots, k) == AbsentBelow(k, Filled(slots))
  {
    if k > 0 {
      MissingIsAbsent(slots, k - 1);
    }
  }

  lemma {:induction false} AbsentMembers(k: nat, present: set<nat>, i: nat)
    requires i < k && i !in present
    ensures i in AbsentBelow(k, present)
  {
    if i < k - 1 {
      AbsentMembers(k - 1, present, i);
    }
  }

  lemma FilledAfter(slots: Slots, i: nat, body: Bytes)
    requires i < |slots|
    ensures Filled(slots[i := Some(body)]) == Filled(slots) + {i}
  {
    var after := slots[i := Some(body)];
    assert forall j :: 0 <= j < |slots| && j != i ==> after[j] == slots[j];
  }

  /** Group `g` is in time: it has not left the window, which for a single data shard does not matter. */
  predicate Timely(shape: Shape, arrivals: seq<Arrival>, g: nat) {
    shape.k == 1 || Newest(arrivals) <= g + Window(shape)
  }

  lemma {:induction false} SubsetSize(a: set<nat>, b: set<nat>)
    requires a <= b
    ensures |a| <= |b|
    decreases |a|
  {
    if a != {} {
      var x :| x in a;
      SubsetSize(a - {x}, b - {x});
    }
  }

  /** One more packet of a group that is not complete with it. */
  lemma TrackStep(shape: Shape, init: seq<Arrival>, a: Arrival)
    requires AllFit(shape, init) && Fits(shape, a) && Filled(Held(shape, init, a.g)) == Arrived(init, a.g)
    requires Newest(init + [a]) <= a.g + Window(shape) && |Arrived(init, a.g) + {a.i}| < shape.k
    ensures AllFit(shape, init + [a]) && Filled(Held(shape, init + [a], a.g)) == Arrived(init, a.g) + {a.i}
  {
    var slots := Held(shape, init, a.g);
    HeldStep(shape, init, a, a.g);
    FilledAfter(slots, a.i, a.body);
    CountIsCardinality(slots[a.i := Some(a.body)]);
    assert slots[a.i].Some? ==> Filled(slots) + {a.i} == Filled(slots);
  }

  /** Until a group has `k` distinct packets or leaves the window, it holds exactly the slots that arrived. */
  lemma {:induction false} HeldTracksArrivals(shape: Shape, arrivals: seq<Arrival>, g: nat)
    requires AllFit(shape, arrivals)
    requires Timely(shape, arrivals, g) && |Arrived(arrivals, g)| < shape.k
    ensures Filled(Held(shape, arrivals, g)) == Arrived(arrivals, g)
    decreases |arrivals|
  {
    if shape.k == 1 {
      NothingHeld(shape, arrivals, g);
    } else if arrivals != [] {
      var init, a := arrivals[..|arrivals| - 1], arrivals[|arrivals| - 1];
      ArrivedStep(init, a, g);
      assert init + [a] == arrivals;
      SubsetSize(Arrived(init, g), Arrived(arrivals, g));
      HeldTracksArrivals(shape, init, g);
      if a.g == g {
        TrackStep(shape, init, a);
      }
    }
  }

  lemma NothingHeld(shape: Shape, arrivals: seq<Arrival>, g: nat)
    requires AllFit(shape, arrivals) && shape.k == 1 && |Arrived(arrivals, g)| < 1
    ensures Filled(Held(shape, arrivals, g)) == Arrived(arrivals, g)
  {
    HeldBounded(shape, arrivals, g);
    CountIsCardinality(Held(shape, arrivals, g));
  }

  /** What a group holds has arrived. */
  lemma {:induction false} HeldWithinArrived(shape: Shape, arrivals: seq<Arrival>, g: nat)
    requires AllFit(shape, arrivals)
    ensures Filled(Held(shape, arrivals, g)) <= Arrived(arrivals, g)
    decreases |arrivals|
  {
    if arrivals != [] {
      var init, a := arrivals[..|arrivals| - 1], arrivals[|arrivals| - 1];
      HeldWithinArrived(shape, init, g);
      ArrivedStep(init, a, g);
      assert init + [a] == arrivals;
      HeldStep(shape, init, a, g);
      FilledAfter(Held(shape, init, a.g), a.i, a.body);
    }
  }

  /** The arrivals are the packets, read one by one. */
  ghost predicate ReadAs(shape: Shape, trace: seq<Bytes>, arrivals: seq<Arrival>)
    requires shape.Valid()
  {
    |arrivals| == |trace| && forall j :: 0 <= j < |trace| ==> Parse(shape, trace[j]) == Some(arrivals[j])
  }

  lemma ReadAsGrows(shape: Shape, trace: seq<Bytes>, arrivals: seq<Arrival>, packet: Bytes, a: Arrival)
    requires shape.Valid() && ReadAs(shape, trace, arrivals) && Parse(shape, packet) == Some(a)
    ensures ReadAs(shape, trace + [packet], arrivals + [a])
  {}

  ghost predicate InRange(shape: Shape, trace: seq<Bytes>)
    requires shape.Valid()
  {
    forall j :: 0 <= j < |trace| ==> Parse(shape, trace[j]).Some?
  }

  lemma {:induction false} ArrivalsAligned(shape: Shape, trace: seq<Bytes>)
    requires shape.Valid() && InRange(shape, trace)
    ensures ReadAs(shape, trace, Arrivals(shape, trace))
  {
    if trace != [] {
      var init, packet := trace[..|trace| - 1], trace[|trace| - 1];
      ArrivalsAligned(shape, init);
      ReadAsGrows(shape, init, Arrivals(shape, init), packet, Parse(shape, packet).value);
      assert init + [packet] == trace;
    }
  }

  lemma CarriedInRange(codec: Codec, log: seq<Call>, trace: seq<Bytes>)
    requires Lawful(codec) && ValidLog(log) && InEpoch(codec.shape, log) && Carries(codec, log, trace)
    ensures InRange(codec.shape, trace)
  {
    forall j | 0 <= j < |trace|
      ensures Parse(codec.shape, trace[j]).Some?
    {
      SentGenuine(codec, log, trace[j]);
    }
  }

  /** `a` brings the `k`-th distinct slot of its group, in time. */
  ghost predicate KthOfGroup(shape: Shape, arrivals: seq<Arrival>, a: Arrival) {
    && a.i !in Arrived(arrivals, a.g)
    && |Arrived(arrivals, a.g)| + 1 == shape.k
    && Timely(shape, arrivals, a.g)
  }

  /** That completes the group. */
  lemma KthCompletes(shape: Shape, arrivals: seq<Arrival>, a: Arrival)
    requires AllFit(shape, arrivals) && Fits(shape, a) && KthOfGroup(shape, arrivals, a)
    ensures Completes(shape, arrivals, a)
    ensures Filled(Held(shape, arrivals, a.g)[a.i := Some(a.body)]) == Arrived(arrivals, a.g) + {a.i}
  {
    var slots := Held(shape, arrivals, a.g);
    HeldTracksArrivals(shape, arrivals, a.g);
    FilledAfter(slots, a.i, a.body);
    CountIsCardinality(slots[a.i := Some(a.body)]);
    assert a.i !in Filled(slots);
  }

  lemma {:induction false} KthDistinct(log: seq<Arrival>, g: nat, k: nat) returns (t: nat)
    requires 0 < k <= |Arrived(log, g)|
    ensures t < |log| && log[t].g == g && log[t].i !in Arrived(log[..t], g) && |Arrived(log[..t], g)| + 1 == k
    decreases |log|
  {
    var init, a := log[..|log| - 1], log[|log| - 1];
    ArrivedStep(init, a, g);
    assert init + [a] == log;
    if k <= |Arrived(init, g)| {
      t := KthDistinct(init, g, k);
      assert log[..t] == init[..t];
    } else {
      t := |log| - 1;
    }
  }

  lemma {:induction false} NewestGrows(log: seq<Arrival>, t: nat)
    requires t <= |log|
    ensures Newest(log[..t]) <= Newest(log)
    decreases |log|
  {
    if t < |log| {
      NewestGrows(log[..|log| - 1], t);
      assert log[..|log| - 1][..t] == log[..t];
    } else {
      assert log[..t] == log;
    }
  }

  /** No other arrival completes a group for the first time: where a group is completed, a `k`-th has come in time. */
  lemma CompletedInTime(shape: Shape, arrivals: seq<Arrival>, a: Arrival) returns (t: nat)
    requires shape.k > 0 && AllFit(shape, arrivals) && Fits(shape, a) && Completes(shape, arrivals, a)
    ensures var log := arrivals + [a];
      t < |log| && log[t].g == a.g && KthOfGroup(shape, log[..t], log[t])
  {
    var log, slots := arrivals + [a], Held(shape, arrivals, a.g);
    HeldWithinArrived(shape, arrivals, a.g);
    FilledAfter(slots, a.i, a.body);
    CountIsCardinality(slots[a.i := Some(a.body)]);
    ArrivedStep(arrivals, a, a.g);
    SubsetSize(Filled(slots) + {a.i}, Arrived(log, a.g));
    t := KthDistinct(log, a.g, shape.k);
    assert log[..t] == arrivals[..t];
    NewestGrows(arrivals, t);
    if shape.k > 1 {
      CompletionKeepsNewest(shape, arrivals, a);
    }
  }

  ghost predicate CompletesAt(shape: Shape, log: seq<Arrival>, g: nat, t: nat)
    requires AllFit(shape, log)
  {
    t < |log| && log[t].g == g && Completes(shape, log[..t], log[t])
  }

  ghost predicate KthAt(shape: Shape, log: seq<Arrival>, g: nat, t: nat) {
    t < |log| && log[t].g == g && KthOfGroup(shape, log[..t], log[t])
  }

  /** A group is ever completed if and only if its `k`-th distinct packet arrives in time. */
  lemma CompletedExactly(shape: Shape, log: seq<Arrival>, g: nat)
    requires shape.k > 0 && AllFit(shape, log)
    ensures (exists t: nat :: CompletesAt(shape, log, g, t)) <==> (exists t: nat :: KthAt(shape, log, g, t))
  {
    if t: nat :| CompletesAt(shape, log, g, t) {
      var s := CompletedInTime(shape, log[..t], log[t]);
      assert log[..t] + [log[t]] == log[..t + 1] && log[..t + 1][..s] == log[..s];
      assert KthAt(shape, log, g, s);
    }
    if t: nat :| KthAt(shape, log, g, t) {
      KthCompletes(shape, log[..t], log[t]);
      assert CompletesAt(shape, log, g, t);
    }
  }

  /**
   * End-to-end recovery: whatever was lost, reordered or repeated, the call that receives the `k`-th distinct packet
   * of a group in time returns exactly the payloads of that group whose own packets have not arrived, in order.
   */
  lemma EndToEndRecovery(codec: Codec, log: seq<Call>, trace: seq<Bytes>, packet: Bytes)
    requires Lawful(codec) && ValidLog(log) && InEpoch(codec.shape, log) && Carries(codec, log, trace + [packet])
    requires Parse(codec.shape, packet).Some?
    requires KthOfGroup(codec.shape, Arrivals(codec.shape, trace), Parse(codec.shape, packet).value)
    ensures var arrivals, a := Arrivals(codec.shape, trace), Parse(codec.shape, packet).value;
      var absent := AbsentBelow(codec.shape.k, Arrived(arrivals, a.g) + {a.i});
      Decoded(codec, arrivals, a) == Ok(PayloadsOf(codec.shape, log, a.g, absent))
  {
    var arrivals, a := Arrivals(codec.shape, trace), Parse(codec.shape, packet).value;
    KthCompletes(codec.shape, arrivals, a);
    MissingIsAbsent(Held(codec.shape, arrivals, a.g)[a.i := Some(a.body)], codec.shape.k);
    RecoverySound(codec, log, trace, packet);
  }

  /**
   * With two data shards or more the window is needed: a packet of a group that is more than the window older than the
   * newest one seen is neither kept nor answered with anything. This also ends their recovery once numbers wrap, as
   * ids start again from 0 while the newest id stays.
   */
  lemma LateGroupIsLost(codec: Codec, arrivals: seq<Arrival>, a: Arrival)
    requires codec.shape.Valid() && KeepsAllPlaces(codec) && codec.shape.k > 1
    requires AllFit(codec.shape, arrivals) && Fits(codec.shape, a)
    requires Newest(arrivals) > a.g + Window(codec.shape)
    ensures Decoded(codec, arrivals, a) == Ok([])
    ensures AllFit(codec.shape, arrivals + [a])
    ensures Held(codec.shape, arrivals + [a], a.g) == NoShards(codec.shape.n())
  {
    CountZero(NoShards(codec.shape.n()));
    CountStep(NoShards(codec.shape.n()), a.i, a.body);
    HeldStep(codec.shape, arrivals, a, a.g);
  }

  lemma SingleMissing(slots: Slots)
    requires slots != [] && slots[0].None?
    ensures Missing(slots, 1) == [0]
  {
    assert Missing(slots, 0) == [];
  }

  lemma SingleCompletes(shape: Shape, log: seq<Arrival>, a: Arrival)
    requires shape.k == 1 && AllFit(shape, log) && Fits(shape, a)
    ensures Completes(shape, log, a)
    ensures a.i > 0 ==> Missing(Held(shape, log, a.g)[a.i := Some(a.body)], 1) == [0]
  {
    var slots := Held(shape, log, a.g);
    HeldBounded(shape, log, a.g);
    CountZero(slots);
    CountStep(slots, a.i, a.body);
    if a.i > 0 {
      SingleMissing(slots[a.i := Some(a.body)]);
    }
  }

  /** With one data shard, parity is answered with the payload at any time. */
  lemma SingleIsAnswered(codec: Codec, log: seq<Call>, trace: seq<Bytes>, packet: Bytes)
    requires Lawful(codec) && ValidLog(log) && InEpoch(codec.shape, log) && Carries(codec, log, trace + [packet])
    requires codec.shape.k == 1 && Parse(codec.shape, packet).Some? && Parse(codec.shape, packet).value.i > 0
    ensures var a := Parse(codec.shape, packet).value;
      Decoded(codec, Arrivals(codec.shape, trace), a) == Ok([PayloadOf(codec.shape, log, a.g, 0)])
  {
    var arrivals, a := Arrivals(codec.shape, trace), Parse(codec.shape, packet).value;
    SingleCompletes(codec.shape, arrivals, a);
    RecoverySound(codec, log, trace, packet);
    assert PayloadsOf(codec.shape, log, a.g, [0]) == [PayloadOf(codec.shape, log, a.g, 0)];
  }

  /** So late parity is lost exactly with two data shards or more. */
  lemma LateParityExactly(codec: Codec, log: seq<Call>, trace: seq<Bytes>, packet: Bytes)
    requires Lawful(codec) && ValidLog(log) && InEpoch(codec.shape, log) && Carries(codec, log, trace + [packet])
    requires Parse(codec.shape, packet).Some? && Parse(codec.shape, packet).value.i >= codec.shape.k
    requires Newest(Arrivals(codec.shape, trace)) > Parse(codec.shape, packet).value.g + Window(codec.shape)
    ensures Decoded(codec, Arrivals(codec.shape, trace), Parse(codec.shape, packet).value) == Ok([]) <==>
      codec.shape.k > 1
  {
    if codec.shape.k > 1 {
      LateGroupIsLost(codec, Arrivals(codec.shape, trace), Parse(codec.shape, packet).value);
    } else {
      SingleIsAnswered(codec, log, trace, packet);
    }
  }

  /** A packet read as a data slot is a data packet and carries that slot's payload in the open. */
  ghost predicate ReadsDirect(codec: Codec, log: seq<Call>, packet: Bytes)
    requires Lawful(codec)
  {
    match Parse(codec.shape, packet)
    case None => false
    case Some(a) =>
      DataPayload(packet) == if a.i < codec.shape.k then Some(PayloadOf(codec.shape, log, a.g, a.i)) else None
  }

  lemma CallPayload(shape: Shape, log: seq<Call>, m: nat)
    requires shape.k > 0 && m < |log|
    ensures PayloadOf(shape, log, GroupOf(shape, m), SlotOf(shape, m)) == log[m].payload
  {
    QuotRem(m, shape.k);
  }

  lemma DirectData(codec: Codec, log: seq<Call>, m: nat)
    requires Lawful(codec) && ValidLog(log) && m < |log| && GroupOf(codec.shape, m) < codec.shape.Groups()
    ensures ReadsDirect(codec, log, DataPacket(codec.shape, log, m))
  {
    ParseData(codec.shape, log, m);
    CallPayload(codec.shape, log, m);
    DataPayloadOf(DataNumber(codec.shape, m), log[m].payload);
  }

  lemma DirectParity(codec: Codec, log: seq<Call>, g: nat, packet: Bytes)
    requires Lawful(codec) && ValidLog(log) && Complete(codec.shape, log, g) && g < codec.shape.Groups()
    requires packet in ParityPackets(codec.shape, Word(codec, log, g), Start(codec.shape, g), codec.shape.p)
    ensures ReadsDirect(codec, log, packet)
  {
    var word := Word(codec, log, g);
    var i := ParityMember(codec.shape, word, Start(codec.shape, g), codec.shape.p, packet);
    ParseSealed(codec.shape, g, i, TYPE_PARITY, word[i]);
    HeaderRoundTrip(Start(codec.shape, g) + i, TYPE_PARITY, word[i]);
  }

  lemma DataSlotIsDirect(codec: Codec, log: seq<Call>, packet: Bytes)
    requires Lawful(codec) && ValidLog(log) && InEpoch(codec.shape, log) && packet in Sent(codec, log)
    ensures ReadsDirect(codec, log, packet)
  {
    var m := SentBy(codec, log, packet);
    EpochGroup(codec.shape, log, m);
    if packet == DataPacket(codec.shape, log, m) {
      DirectData(codec, log, m);
    } else {
      DirectParity(codec, log, GroupOf(codec.shape, m), packet);
    }
  }

  /** What one received packet makes `input_fec` hand on: its own payload if it is data, then the recovered ones. */
  ghost function Handed(codec: Codec, arrivals: seq<Arrival>, packet: Bytes): seq<Bytes>
    requires codec.shape.Valid() && KeepsAllPlaces(codec) && AllFit(codec.shape, arrivals)
  {
    DirectPayload(packet) + match Answer(codec, arrivals, packet) case Ok(payloads) => payloads case Err(_) => []
  }

  function DirectPayload(packet: Bytes): seq<Bytes> {
    match DataPayload(packet) case Some(payload) => [payload] case None => []
  }

  /**
   * Once the `k`-th distinct packet of a group is in, each of the group's payloads was carried in the open by an
   * earlier packet or is handed on now.
   */
  lemma GroupCovered(codec: Codec, log: seq<Call>, trace: seq<Bytes>, packet: Bytes, i: nat) returns (t: nat)
    requires Lawful(codec) && ValidLog(log) && InEpoch(codec.shape, log) && Carries(codec, log, trace + [packet])
    requires Parse(codec.shape, packet).Some? && i < codec.shape.k
    requires KthOfGroup(codec.shape, Arrivals(codec.shape, trace), Parse(codec.shape, packet).value)
    ensures t <= |trace|
    ensures var payload := PayloadOf(codec.shape, log, Parse(codec.shape, packet).value.g, i);
      if t < |trace| then DataPayload(trace[t]) == Some(payload)
      else payload in Handed(codec, Arrivals(codec.shape, trace), packet)
  {
    var arrivals, a := Arrivals(codec.shape, trace), Parse(codec.shape, packet).value;
    assert forall j :: 0 <= j < |trace| ==> (trace + [packet])[j] == trace[j];
    assert (trace + [packet])[|trace|] == packet;
    if i in Arrived(arrivals, a.g) {
      CarriedInRange(codec, log, trace);
      ArrivalsAligned(codec.shape, trace);
      t :| 0 <= t < |arrivals| && arrivals[t].g == a.g && arrivals[t].i == i;
      DataSlotIsDirect(codec, log, trace[t]);
    } else {
      t := |trace|;
      if i == a.i {
        DataSlotIsDirect(codec, log, packet);
      } else {
        var absent := AbsentBelow(codec.shape.k, Arrived(arrivals, a.g) + {a.i});
        EndToEndRecovery(codec, log, trace, packet);
        AbsentMembers(codec.shape.k, Arrived(arrivals, a.g) + {a.i}, i);
        var j :| 0 <= j < |absent| && absent[j] == i;
        assert PayloadsOf(codec.shape, log, a.g, absent)[j] == PayloadOf(codec.shape, log, a.g, i);
      }
    }
  }
}
