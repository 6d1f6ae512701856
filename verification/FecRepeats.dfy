/** How often a group is reconstructed when no packet is delivered twice: at most once for some shapes only. */
module FecRepeats {
  import opened Base
  import opened Arithmetic
  import opened ErasureCode
  import opened FecTranscript
  import opened FecReception
  import opened FecBounds
  import opened FecChannel
  import opened FecRecovery
  import opened FecGroups

  /** With one data shard every arrival completes its group, and has it rebuilt unless it is the data shard itself. */
  lemma SingleRebuilds(shape: Shape, log: seq<Arrival>, a: Arrival)
    requires shape.k == 1 && AllFit(shape, log) && Fits(shape, a)
    ensures Rebuilds(shape, log, a) <==> a.i != 0
  {
    SingleCompletes(shape, log, a);
    assert Missing(Held(shape, log, a.g)[a.i := Some(a.body)], 0) == [];
  }

  lemma NewSlot(present: set<nat>, i: nat)
    requires i !in present
    ensures |(present + {i}) - {0}| == |present - {0}| + if i != 0 then 1 else 0
  {
    assert (present + {i}) - {0} == (present - {0}) + if i != 0 then {i} else {};
  }

  /** A duplicate-free delivery brings a new slot with every arrival. */
  lemma NewArrival(init: seq<Arrival>, a: Arrival)
    requires NoDuplicates(init + [a])
    ensures NoDuplicates(init) && a.i !in Arrived(init, a.g)
  {
    var log := init + [a];
    assert forall j :: 0 <= j < |init| ==> log[j] == init[j];
    assert log[|init|] == a;
  }

  lemma {:induction false} SingleReconstructs(shape: Shape, log: seq<Arrival>, g: nat)
    requires shape.k == 1 && AllFit(shape, log) && NoDuplicates(log)
    ensures Reconstructions(shape, log, g) == |Arrived(log, g) - {0}|
    decreases |log|
  {
    if log != [] {
      var init, a := log[..|log| - 1], log[|log| - 1];
      assert init + [a] == log;
      NewArrival(init, a);
      SingleReconstructs(shape, init, g);
      SingleRebuilds(shape, init, a);
      ArrivedStep(init, a, g);
      if a.g == g {
        NewSlot(Arrived(init, g), a.i);
      } else {
        assert Arrived(log, g) == Arrived(init, g);
      }
    }
  }

  /** The shapes for which no duplicate-free delivery has a group rebuilt twice. */
  predicate RebuildsOnce(shape: Shape) {
    shape.p < shape.k || (shape.k == 1 && shape.p == 1)
  }

  lemma ReconstructedAtMostOnce(shape: Shape, log: seq<Arrival>, g: nat)
    requires shape.Valid() && RebuildsOnce(shape) && AllFit(shape, log) && NoDuplicates(log)
    ensures Reconstructions(shape, log, g) <= 1
  {
    if shape.p < shape.k {
      CompletedAtMostOnce(shape, log, g);
      FewerReconstructions(shape, log, g);
    } else {
      SingleReconstructs(shape, log, g);
      RangeSize(Arrived(log, g) - {0}, 1, 2);
    }
  }

  // ---------- Two reconstructions for all other shapes ----------

  /**
   * `2k` distinct slots such that each half lacks a data slot: the first data slot with parity, then the other data
   * slots with parity; for a single data shard, two parity slots.
   */
  function TwoRounds(k: nat): (slots: seq<nat>)
    requires k > 0
    ensures |slots| == k + k
  {
    seq(k + k, t requires 0 <= t < k + k =>
      if k == 1 then t + 1
      else if t == 0 then 0 else if t < k then k + t - 1
      else if t < k + k - 1 then t - k + 1 else t)
  }

  lemma TwoRoundsFit(shape: Shape)
    requires 0 < shape.k <= shape.p && !RebuildsOnce(shape)
    ensures SlotsOf(shape, TwoRounds(shape.k)) && Distinct(TwoRounds(shape.k))
  {}

  lemma TwoRoundsHoles(k: nat)
    requires k > 0
    ensures (if k == 1 then 0 else 1) !in Stretch(TwoRounds(k), 0, k)
    ensures 0 !in Stretch(TwoRounds(k), k, k + k)
  {
    var slots, hole := TwoRounds(k), if k == 1 then 0 else 1;
    if hole in Stretch(slots, 0, k) {
      var _ := InStretch(slots, 0, k, hole);
      assert false;
    }
    if 0 in Stretch(slots, k, k + k) {
      var _ := InStretch(slots, k, k + k, 0);
      assert false;
    }
  }

  lemma StartsEmpty(shape: Shape, log: seq<Arrival>, g: nat)
    requires AllFit(shape, log)
    ensures HoldsAt(shape, log, 0, g, {}, 0)
  {
    assert log[..0] == [];
    assert Filled(NoShards(shape.n())) == {};
  }

  lemma AtEnd(shape: Shape, log: seq<Arrival>, end: nat, g: nat, times: nat)
    requires end == |log| && HoldsAt(shape, log, end, g, {}, times)
    ensures Reconstructions(shape, log, g) == times
  {
    assert log[..end] == log;
  }

  /** `2k` distinct slots, each half lacking a data slot. */
  ghost predicate TwoHalves(shape: Shape, slots: seq<nat>, hole: nat) {
    && Distinct(slots) && SlotsOf(shape, slots) && |slots| == shape.k + shape.k
    && hole < shape.k && hole !in Stretch(slots, 0, shape.k) && 0 !in Stretch(slots, shape.k, shape.k + shape.k)
  }

  /** The first half has the group rebuilt. */
  lemma FirstRebuilds(shape: Shape, log: seq<Arrival>, g: nat, slots: seq<nat>, hole: nat, half: nat)
    requires AllFit(shape, log) && OfSlots(log, g, slots) && TwoHalves(shape, slots, hole) && half == shape.k
    ensures RebuildsAt(shape, log, half - 1) && HoldsAt(shape, log, half, g, {}, 1)
  {
    StartsEmpty(shape, log, g);
    RoundRebuilds(shape, log, g, slots, 0, half - 1, 0, hole);
  }

  /** So does the second half. */
  lemma SecondRebuilds(shape: Shape, log: seq<Arrival>, g: nat, slots: seq<nat>, hole: nat, half: nat)
    requires AllFit(shape, log) && OfSlots(log, g, slots) && TwoHalves(shape, slots, hole) && half == shape.k
    ensures RebuildsAt(shape, log, half + half - 1) && HoldsAt(shape, log, half + half, g, {}, 2)
  {
    FirstRebuilds(shape, log, g, slots, hole, half);
    RoundRebuilds(shape, log, g, slots, half, half + half - 1, 1, 0);
  }

  lemma BothRebuild(shape: Shape, log: seq<Arrival>, g: nat, slots: seq<nat>, hole: nat, half: nat, end: nat)
    requires AllFit(shape, log) && OfSlots(log, g, slots) && TwoHalves(shape, slots, hole)
    requires half == shape.k && end == half + half
    ensures Reconstructions(shape, log, g) == 2
  {
    SecondRebuilds(shape, log, g, slots, hole, half);
    AtEnd(shape, log, end, g, 2);
  }

  lemma OtherRebuilds(shape: Shape, log: seq<Arrival>, g: nat, slots: seq<nat>, hole: nat) returns (second: nat)
    requires AllFit(shape, log) && OfSlots(log, g, slots) && TwoHalves(shape, slots, hole)
    ensures shape.k <= second < |log| && RebuildsAt(shape, log, second)
  {
    second := shape.k + shape.k - 1;
    SecondRebuilds(shape, log, g, slots, hole, shape.k);
  }

  lemma OneRebuilds(shape: Shape, log: seq<Arrival>, g: nat, slots: seq<nat>, hole: nat) returns (first: nat)
    requires AllFit(shape, log) && OfSlots(log, g, slots) && TwoHalves(shape, slots, hole)
    ensures first < shape.k && RebuildsAt(shape, log, first)
  {
    first := shape.k - 1;
    FirstRebuilds(shape, log, g, slots, hole, shape.k);
  }

  lemma DistinctArrivals(log: seq<Arrival>, g: nat, slots: seq<nat>)
    requires OfSlots(log, g, slots) && Distinct(slots)
    ensures NoDuplicates(log)
  {}

  /** The call that receives packet `t` of the trace returns payloads. */
  ghost predicate Answers(codec: Codec, trace: seq<Bytes>, t: nat)
    requires Lawful(codec) && t < |trace|
  {
    var r := Answer(codec, Arrivals(codec.shape, trace[..t]), trace[t]);
    r.Ok? && r.value != []
  }

  lemma RebuiltIsAnswered(codec: Codec, log: seq<Call>, init: seq<Bytes>, packet: Bytes)
    requires Lawful(codec) && ValidLog(log) && InEpoch(codec.shape, log) && Carries(codec, log, init + [packet])
    requires Parse(codec.shape, packet).Some?
    requires Rebuilds(codec.shape, Arrivals(codec.shape, init), Parse(codec.shape, packet).value)
    ensures Answer(codec, Arrivals(codec.shape, init), packet).Ok?
    ensures Answer(codec, Arrivals(codec.shape, init), packet).value != []
  {
    RecoverySound(codec, log, init, packet);
  }

  lemma PacketAt(codec: Codec, log: seq<Call>, trace: seq<Bytes>, t: nat)
    requires Lawful(codec) && ValidLog(log) && InEpoch(codec.shape, log) && Carries(codec, log, trace) && t < |trace|
    requires RebuildsAt(codec.shape, Arrivals(codec.shape, trace), t)
    ensures Answers(codec, trace, t)
  {
    var arrivals := Arrivals(codec.shape, trace);
    CarriedInRange(codec, log, trace);
    ArrivalsAligned(codec.shape, trace);
    ArrivalsPrefix(codec.shape, trace, t);
    assert Parse(codec.shape, trace[t]) == Some(arrivals[t]);
    PrefixCarried(codec, log, trace, t);
    RebuiltIsAnswered(codec, log, trace[..t], trace[t]);
  }

  lemma PrefixCarried(codec: Codec, log: seq<Call>, trace: seq<Bytes>, t: nat)
    requires Lawful(codec) && ValidLog(log) && Carries(codec, log, trace) && t < |trace|
    ensures Carries(codec, log, trace[..t] + [trace[t]])
  {}

  lemma {:induction false} ArrivalsPrefix(shape: Shape, trace: seq<Bytes>, t: nat)
    requires shape.Valid() && t <= |trace| && ReadAs(shape, trace, Arrivals(shape, trace))
    ensures Arrivals(shape, trace[..t]) == Arrivals(shape, trace)[..t]
    decreases |trace|
  {
    if t < |trace| {
      var init := trace[..|trace| - 1];
      assert Parse(shape, trace[|trace| - 1]).Some?;
      ArrivalsPrefix(shape, init, t);
      assert init[..t] == trace[..t];
    } else {
      assert trace[..t] == trace;
    }
  }

  lemma SomeHalves(shape: Shape) returns (slots: seq<nat>, hole: nat)
    requires 0 < shape.k <= shape.p && !RebuildsOnce(shape)
    ensures TwoHalves(shape, slots, hole)
  {
    slots, hole := TwoRounds(shape.k), if shape.k == 1 then 0 else 1;
    TwoRoundsFit(shape);
    TwoRoundsHoles(shape.k);
  }

  lemma SlotTrace(codec: Codec, log: seq<Call>, g: nat, slots: seq<nat>) returns (trace: seq<Bytes>)
    requires Lawful(codec) && ValidLog(log) && InEpoch(codec.shape, log) && GroupSent(codec.shape, log, g)
    requires SlotsOf(codec.shape, slots)
    ensures Carries(codec, log, trace) && |trace| == |slots| && OfSlots(Arrivals(codec.shape, trace), g, slots)
  {
    trace := SlotPackets(codec, log, g, slots);
    SlotPacketsCarried(codec, log, g, slots);
    SlotArrivals(codec, log, g, slots);
  }

  lemma RebuildsTwice(shape: Shape, log: seq<Arrival>, g: nat, slots: seq<nat>, hole: nat)
      returns (first: nat, second: nat)
    requires AllFit(shape, log) && OfSlots(log, g, slots) && TwoHalves(shape, slots, hole)
    ensures NoDuplicates(log) && Reconstructions(shape, log, g) == 2
    ensures first < second < |log| && RebuildsAt(shape, log, first) && RebuildsAt(shape, log, second)
  {
    DistinctArrivals(log, g, slots);
    first := OneRebuilds(shape, log, g, slots, hole);
    second := OtherRebuilds(shape, log, g, slots, hole);
    BothRebuild(shape, log, g, slots, hole, shape.k, shape.k + shape.k);
  }

  lemma SomeTrace(codec: Codec, log: seq<Call>, g: nat) returns (trace: seq<Bytes>, slots: seq<nat>, hole: nat)
    requires Lawful(codec) && ValidLog(log) && InEpoch(codec.shape, log) && GroupSent(codec.shape, log, g)
    requires !RebuildsOnce(codec.shape)
    ensures Carries(codec, log, trace) && |trace| == |slots| && TwoHalves(codec.shape, slots, hole)
    ensures OfSlots(Arrivals(codec.shape, trace), g, slots)
  {
    slots, hole := SomeHalves(codec.shape);
    trace := SlotTrace(codec, log, g, slots);
  }

  /**
   * With as many parity as data shards, except one of each: of any group sent with parity, some packets, each
   * delivered once, make the decoder return payloads of the group twice.
   */
  lemma ReconstructedTwice(codec: Codec, log: seq<Call>, g: nat) returns (trace: seq<Bytes>, first: nat, second: nat)
    requires Lawful(codec) && ValidLog(log) && InEpoch(codec.shape, log) && GroupSent(codec.shape, log, g)
    requires !RebuildsOnce(codec.shape)
    ensures Carries(codec, log, trace) && NoDuplicates(Arrivals(codec.shape, trace))
    ensures Reconstructions(codec.shape, Arrivals(codec.shape, trace), g) == 2
    ensures first < second < |trace| && Answers(codec, trace, first) && Answers(codec, trace, second)
  {
    var slots, hole;
    trace, slots, hole := SomeTrace(codec, log, g);
    first, second := RebuildsTwice(codec.shape, Arrivals(codec.shape, trace), g, slots, hole);
    PacketAt(codec, log, trace, first);
    PacketAt(codec, log, trace, second);
  }

  /** A sender that accepts `2k` payloads at once sends group 1 with its parity. */
  lemma SomeGroupIsSent(shape: Shape) returns (log: seq<Call>)
    requires shape.Valid()
    ensures ValidLog(log) && InEpoch(shape, log) && GroupSent(shape, log, 1)
  {
    log := seq(shape.k + shape.k, _ => Call([], 0));
    SmallTimes(shape.k);
    TwoGroups(shape);
    TimesMonotone(2, shape.Groups(), shape.k);
    Unique(shape.k + shape.k - 1, shape.k, 1, shape.k - 1);
  }

  lemma TwoGroups(shape: Shape)
    requires shape.Valid()
    ensures shape.Groups() >= 2
  {
    QuotRem(0xffff_ffff, shape.n());
    DivModOperators(0xffff_ffff, shape.n());
  }

  /** In this delivery group `g` is reconstructed once at most, if no packet is delivered twice. */
  ghost predicate OnceIn(codec: Codec, log: seq<Call>, trace: seq<Bytes>, g: nat)
    requires Lawful(codec)
  {
    ValidLog(log) && InEpoch(codec.shape, log) && Carries(codec, log, trace) &&
    NoDuplicates(Arrivals(codec.shape, trace)) ==>
      Reconstructions(codec.shape, Arrivals(codec.shape, trace), g) <= 1
  }

  /**
   * Exactly when groups are reconstructed at most once on every duplicate-free delivery of a sender's packets: with
   * fewer parity than data shards, or one of each.
   */
  lemma ReconstructedOnceExactly(codec: Codec)
    requires Lawful(codec)
    ensures (forall log, trace, g: nat :: OnceIn(codec, log, trace, g)) <==> RebuildsOnce(codec.shape)
  {
    if RebuildsOnce(codec.shape) {
      forall log, trace, g: nat
        ensures OnceIn(codec, log, trace, g)
      {
        if NoDuplicates(Arrivals(codec.shape, trace)) {
          ReconstructedAtMostOnce(codec.shape, Arrivals(codec.shape, trace), g);
        }
      }
    } else {
      var log := SomeGroupIsSent(codec.shape);
      var trace, _, _ := ReconstructedTwice(codec, log, 1);
      assert !OnceIn(codec, log, trace, 1);
    }
  }
}
