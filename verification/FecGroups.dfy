/** All packets of one group as the sender sends them, and what receiving them in some order does. */
module FecGroups {
  import opened Base
  import opened Arithmetic
  import opened FecFormat
  import opened ErasureCode
  import opened FecTranscript
  import opened FecReception
  import opened FecBounds
  import opened FecChannel
  import opened FecRecovery

  /** Group `g` was sent with its parity. */
  ghost predicate GroupSent(shape: Shape, log: seq<Call>, g: nat)
    requires shape.k > 0
  {
    Complete(shape, log, g) && SendsParity(shape, log, Times(g, shape.k) + shape.k - 1)
  }

  ghost function SlotBody(codec: Codec, log: seq<Call>, g: nat, i: nat): Bytes
    requires Lawful(codec) && ValidLog(log) && Complete(codec.shape, log, g) && i < codec.shape.n()
  {
    if i < codec.shape.k then Prefixed(PayloadOf(codec.shape, log, g, i)) else Word(codec, log, g)[i]
  }

  /** A packet for slot `i` of group `g` with this body. */
  function Sealed(shape: Shape, g: nat, i: nat, body: Bytes): Bytes
    requires shape.Valid() && i < shape.n()
  {
    if i < shape.k then Header(Start(shape, g) + i, TYPE_DATA) + body
    else Header(Start(shape, g) + i, TYPE_PARITY) + body
  }

  lemma SealedParsed(shape: Shape, g: nat, i: nat, body: Bytes)
    requires shape.Valid() && i < shape.n() && g < shape.Groups()
    ensures Parse(shape, Sealed(shape, g, i, body)) == Some(Arrival(g, i, body))
  {
    var flag := if i < shape.k then TYPE_DATA else TYPE_PARITY;
    ParseNumbered(shape, g, i, Start(shape, g) + i, flag, body, Sealed(shape, g, i, body));
  }

  /** The packet that carries slot `i` of group `g`. */
  ghost function SlotPacket(codec: Codec, log: seq<Call>, g: nat, i: nat): Bytes
    requires Lawful(codec) && ValidLog(log) && Complete(codec.shape, log, g) && i < codec.shape.n()
  {
    Sealed(codec.shape, g, i, SlotBody(codec, log, g, i))
  }

  lemma SentOutput(codec: Codec, log: seq<Call>, m: nat, packet: Bytes)
    requires Lawful(codec) && ValidLog(log) && m < |log| && packet in Output(codec, log, m)
    ensures packet in Sent(codec, log)
  {
    InConcat(Outputs(codec, log, |log|), m, packet);
  }

  lemma {:induction false} InConcat<T>(parts: seq<seq<T>>, j: nat, x: T)
    requires j < |parts| && x in parts[j]
    ensures x in Concat(parts)
  {
    if j > 0 {
      InConcat(parts[1..], j - 1, x);
    }
  }

  lemma {:induction false} InParity(shape: Shape, word: Shards, g: nat, j: nat, i: nat)
    requires shape.Valid() && |word| == shape.n() && j <= shape.p && shape.k <= i < shape.k + j
    ensures Sealed(shape, g, i, word[i]) in ParityPackets(shape, word, Start(shape, g), j)
    decreases j
  {
    if i < shape.k + j - 1 {
      InParity(shape, word, g, j - 1, i);
    }
  }

  lemma SlotOfCall(shape: Shape, g: nat, i: nat)
    requires i < shape.k
    ensures GroupOf(shape, Times(g, shape.k) + i) == g && SlotOf(shape, Times(g, shape.k) + i) == i
  {
    Unique(Times(g, shape.k) + i, shape.k, g, i);
  }

  /** No other call has the payload of call `m`. */
  ghost predicate Once(log: seq<Call>, m: nat) {
    m < |log| && forall j :: 0 <= j < |log| && log[j].payload == log[m].payload ==> j == m
  }

  /** Slot `i` of group `g` has been accepted. */
  ghost predicate InLog(shape: Shape, log: seq<Call>, g: nat, i: nat) {
    i < shape.k && Times(g, shape.k) + i < |log|
  }

  lemma OnlySlot(shape: Shape, log: seq<Call>, m: nat, g: nat, i: nat)
    requires Once(log, m) && InLog(shape, log, g, i) && PayloadOf(shape, log, g, i) == log[m].payload
    ensures g == GroupOf(shape, m) && i == SlotOf(shape, m)
  {
    SlotOfCall(shape, g, i);
  }

  lemma CompleteInLog(shape: Shape, log: seq<Call>, g: nat, i: nat)
    requires Complete(shape, log, g) && i < shape.k
    ensures InLog(shape, log, g, i)
  {}

  /** A packet sent that carries a payload in the open carries it for an accepted slot. */
  lemma OpenSlot(codec: Codec, log: seq<Call>, packet: Bytes)
    requires Lawful(codec) && ValidLog(log) && InEpoch(codec.shape, log) && packet in Sent(codec, log)
    requires DataPayload(packet).Some?
    ensures Parse(codec.shape, packet).Some?
    ensures var a := Parse(codec.shape, packet).value;
      InLog(codec.shape, log, a.g, a.i) && DataPayload(packet) == Some(PayloadOf(codec.shape, log, a.g, a.i))
  {
    SentGenuine(codec, log, packet);
    DataSlotIsDirect(codec, log, packet);
  }

  lemma DataSlotSent(codec: Codec, log: seq<Call>, g: nat, i: nat)
    requires Lawful(codec) && ValidLog(log) && Complete(codec.shape, log, g) && i < codec.shape.k
    ensures SlotPacket(codec, log, g, i) in Sent(codec, log)
  {
    var m := Times(g, codec.shape.k) + i;
    SlotOfCall(codec.shape, g, i);
    assert DataPacket(codec.shape, log, m) == SlotPacket(codec, log, g, i);
    SentOutput(codec, log, m, DataPacket(codec.shape, log, m));
  }

  lemma ParityInOutput(codec: Codec, log: seq<Call>, m: nat, packet: Bytes)
    requires Lawful(codec) && ValidLog(log) && m < |log| && SendsParity(codec.shape, log, m)
    requires var g := GroupOf(codec.shape, m);
      packet in ParityPackets(codec.shape, Word(codec, log, g), Start(codec.shape, g), codec.shape.p)
    ensures packet in Output(codec, log, m)
  {}

  lemma ParitySlotSent(codec: Codec, log: seq<Call>, g: nat, i: nat)
    requires Lawful(codec) && ValidLog(log) && GroupSent(codec.shape, log, g) && codec.shape.k <= i < codec.shape.n()
    ensures SlotPacket(codec, log, g, i) in Sent(codec, log)
  {
    var m, packet := Times(g, codec.shape.k) + codec.shape.k - 1, SlotPacket(codec, log, g, i);
    SlotOfCall(codec.shape, g, codec.shape.k - 1);
    InParity(codec.shape, Word(codec, log, g), g, codec.shape.p, i);
    ParityInOutput(codec, log, m, packet);
    SentOutput(codec, log, m, packet);
  }

  lemma SlotPacketSent(codec: Codec, log: seq<Call>, g: nat, i: nat)
    requires Lawful(codec) && ValidLog(log) && GroupSent(codec.shape, log, g) && i < codec.shape.n()
    ensures SlotPacket(codec, log, g, i) in Sent(codec, log)
  {
    if i < codec.shape.k {
      DataSlotSent(codec, log, g, i);
    } else {
      ParitySlotSent(codec, log, g, i);
    }
  }

  lemma SlotPacketParsed(codec: Codec, log: seq<Call>, g: nat, i: nat)
    requires Lawful(codec) && ValidLog(log) && Complete(codec.shape, log, g) && i < codec.shape.n()
    requires g < codec.shape.Groups()
    ensures Parse(codec.shape, SlotPacket(codec, log, g, i)) == Some(Arrival(g, i, SlotBody(codec, log, g, i)))
  {
    SealedParsed(codec.shape, g, i, SlotBody(codec, log, g, i));
  }

  lemma GroupInEpoch(shape: Shape, log: seq<Call>, g: nat)
    requires shape.Valid() && InEpoch(shape, log) && Complete(shape, log, g)
    ensures g < shape.Groups()
  {
    SlotOfCall(shape, g, 0);
    EpochGroup(shape, log, Times(g, shape.k));
  }

  ghost predicate SlotsOf(shape: Shape, slots: seq<nat>) {
    forall j :: 0 <= j < |slots| ==> slots[j] < shape.n()
  }

  /** The packets of these slots, in this order. */
  ghost function SlotPackets(codec: Codec, log: seq<Call>, g: nat, slots: seq<nat>): (packets: seq<Bytes>)
    requires Lawful(codec) && ValidLog(log) && Complete(codec.shape, log, g) && SlotsOf(codec.shape, slots)
    ensures |packets| == |slots|
  {
    seq(|slots|, j requires 0 <= j < |slots| => SlotPacket(codec, log, g, slots[j]))
  }

  lemma SlotPacketsCarried(codec: Codec, log: seq<Call>, g: nat, slots: seq<nat>)
    requires Lawful(codec) && ValidLog(log) && GroupSent(codec.shape, log, g) && SlotsOf(codec.shape, slots)
    ensures Carries(codec, log, SlotPackets(codec, log, g, slots))
  {
    forall j | 0 <= j < |slots|
      ensures SlotPackets(codec, log, g, slots)[j] in Sent(codec, log)
    {
      SlotPacketSent(codec, log, g, slots[j]);
    }
  }

  /** These arrivals are of group `g` and of these slots, in this order. */
  ghost predicate OfSlots(arrivals: seq<Arrival>, g: nat, slots: seq<nat>) {
    |arrivals| == |slots| && forall j :: 0 <= j < |slots| ==> arrivals[j].g == g && arrivals[j].i == slots[j]
  }

  lemma SlotArrivals(codec: Codec, log: seq<Call>, g: nat, slots: seq<nat>)
    requires Lawful(codec) && ValidLog(log) && InEpoch(codec.shape, log) && GroupSent(codec.shape, log, g)
    requires SlotsOf(codec.shape, slots)
    ensures OfSlots(Arrivals(codec.shape, SlotPackets(codec, log, g, slots)), g, slots)
  {
    var trace := SlotPackets(codec, log, g, slots);
    GroupInEpoch(codec.shape, log, g);
    SlotPacketsCarried(codec, log, g, slots);
    CarriedInRange(codec, log, trace);
    ArrivalsAligned(codec.shape, trace);
    forall j | 0 <= j < |slots|
      ensures Arrivals(codec.shape, trace)[j].g == g && Arrivals(codec.shape, trace)[j].i == slots[j]
    {
      SlotPacketParsed(codec, log, g, slots[j]);
    }
  }

  ghost predicate Distinct(slots: seq<nat>) {
    forall s, t :: 0 <= s < t < |slots| ==> slots[s] != slots[t]
  }

  /** The slots from position `from` up to `to`. */
  function Stretch(slots: seq<nat>, from: nat, to: nat): set<nat>
    requires to <= |slots|
  {
    if to <= from then {} else Stretch(slots, from, to - 1) + {slots[to - 1]}
  }

  lemma {:induction false} InStretch(slots: seq<nat>, from: nat, to: nat, i: nat) returns (j: nat)
    requires to <= |slots| && i in Stretch(slots, from, to)
    ensures from <= j < to && slots[j] == i
  {
    j := to - 1;
    if slots[j] != i {
      j := InStretch(slots, from, to - 1, i);
    }
  }

  lemma {:induction false} StretchSize(slots: seq<nat>, from: nat, to: nat)
    requires from <= to <= |slots| && Distinct(slots)
    ensures |Stretch(slots, from, to)| == to - from
    ensures forall j :: to <= j < |slots| ==> slots[j] !in Stretch(slots, from, to)
  {
    if from < to {
      StretchSize(slots, from, to - 1);
    }
  }

  lemma LastOfDistinct(slots: seq<nat>)
    requires slots != [] && Distinct(slots)
    ensures slots[|slots| - 1] !in slots[..|slots| - 1]
    ensures forall x :: x in slots[..|slots| - 1] ==> x in slots
  {}

  lemma {:induction false} ArrivedOfSlots(log: seq<Arrival>, g: nat, slots: seq<nat>)
    requires OfSlots(log, g, slots) && Distinct(slots)
    ensures |Arrived(log, g)| == |slots| && Newest(log) <= g
    ensures forall x :: x in Arrived(log, g) ==> x in slots
    decreases |log|
  {
    if log != [] {
      var init, a := log[..|log| - 1], log[|log| - 1];
      ArrivedOfSlots(init, g, slots[..|slots| - 1]);
      LastOfDistinct(slots);
      ArrivedStep(init, a, g);
      assert init + [a] == log;
      assert a.i == slots[|slots| - 1] && a.i !in Arrived(init, g);
    }
  }

  // ---------- Filling a group from nothing ----------

  /** Group `g` holds exactly these slots, no newer group has been seen, and `g` has been rebuilt `times` times. */
  ghost predicate Holds(shape: Shape, log: seq<Arrival>, g: nat, present: set<nat>, times: nat)
    requires AllFit(shape, log)
  {
    && Filled(Held(shape, log, g)) == present && Newest(log) <= g
    && Reconstructions(shape, log, g) == times
  }

  lemma CountWith(slots: Slots, i: nat, body: Bytes)
    requires i < |slots| && i !in Filled(slots)
    ensures Filled(slots[i := Some(body)]) == Filled(slots) + {i}
    ensures Count(slots[i := Some(body)]) == |Filled(slots)| + 1
  {
    FilledAfter(slots, i, body);
    CountIsCardinality(slots[i := Some(body)]);
  }

  lemma ReconstructionsSnoc(shape: Shape, log: seq<Arrival>, a: Arrival, g: nat)
    requires AllFit(shape, log) && Fits(shape, a)
    ensures AllFit(shape, log + [a])
    ensures Reconstructions(shape, log + [a], g) ==
      Reconstructions(shape, log, g) + if a.g == g && Rebuilds(shape, log, a) then 1 else 0
  {
    assert (log + [a])[..|log|] == log;
  }

  /** A new slot that does not make `k`. */
  lemma FillStep(shape: Shape, log: seq<Arrival>, a: Arrival, present: set<nat>, times: nat)
    requires AllFit(shape, log) && Fits(shape, a) && Holds(shape, log, a.g, present, times)
    requires a.i !in present && |present| + 1 < shape.k
    ensures AllFit(shape, log + [a]) && Holds(shape, log + [a], a.g, present + {a.i}, times)
  {
    CountWith(Held(shape, log, a.g), a.i, a.body);
    HeldStep(shape, log, a, a.g);
    ReconstructionsSnoc(shape, log, a, a.g);
  }

  /** The slot that makes `k`, with a data slot missing: the group is rebuilt and nothing of it is left. */
  lemma RebuildStep(shape: Shape, log: seq<Arrival>, a: Arrival, present: set<nat>, times: nat, hole: nat)
    requires AllFit(shape, log) && Fits(shape, a) && Holds(shape, log, a.g, present, times)
    requires a.i !in present && |present| + 1 == shape.k && hole < shape.k && hole !in present + {a.i}
    ensures Rebuilds(shape, log, a)
    ensures AllFit(shape, log + [a]) && Holds(shape, log + [a], a.g, {}, times + 1)
  {
    var full := Held(shape, log, a.g)[a.i := Some(a.body)];
    CountWith(Held(shape, log, a.g), a.i, a.body);
    MissingIsAbsent(full, shape.k);
    AbsentMembers(shape.k, present + {a.i}, hole);
    HeldStep(shape, log, a, a.g);
    ReconstructionsSnoc(shape, log, a, a.g);
    assert Filled(NoShards(shape.n())) == {};
  }

  /** The state after the first `to` arrivals. */
  ghost predicate HoldsAt(shape: Shape, log: seq<Arrival>, to: nat, g: nat, present: set<nat>, times: nat) {
    to <= |log| && AllFit(shape, log) && Holds(shape, log[..to], g, present, times)
  }

  lemma FillAt(shape: Shape, log: seq<Arrival>, to: nat, g: nat, present: set<nat>, times: nat)
    requires to < |log| && HoldsAt(shape, log, to, g, present, times)
    requires log[to].g == g && log[to].i !in present && |present| + 1 < shape.k
    ensures HoldsAt(shape, log, to + 1, g, present + {log[to].i}, times)
  {
    assert log[..to] + [log[to]] == log[..to + 1];
    FillStep(shape, log[..to], log[to], present, times);
  }

  lemma RebuildAt(shape: Shape, log: seq<Arrival>, to: nat, g: nat, present: set<nat>, times: nat, hole: nat)
    requires to < |log| && HoldsAt(shape, log, to, g, present, times)
    requires log[to].g == g && log[to].i !in present && |present| + 1 == shape.k
    requires hole < shape.k && hole !in present + {log[to].i}
    ensures RebuildsAt(shape, log, to)
    ensures HoldsAt(shape, log, to + 1, g, {}, times + 1)
  {
    assert log[..to] + [log[to]] == log[..to + 1];
    RebuildStep(shape, log[..to], log[to], present, times, hole);
  }

  ghost predicate RebuildsAt(shape: Shape, log: seq<Arrival>, to: nat) {
    to < |log| && AllFit(shape, log) && Rebuilds(shape, log[..to], log[to])
  }

  lemma FillNext(shape: Shape, log: seq<Arrival>, g: nat, slots: seq<nat>, from: nat, to: nat, times: nat)
    requires OfSlots(log, g, slots) && Distinct(slots) && from <= to < |log| && to - from + 1 < shape.k
    requires HoldsAt(shape, log, to, g, Stretch(slots, from, to), times)
    ensures HoldsAt(shape, log, to + 1, g, Stretch(slots, from, to + 1), times)
  {
    StretchSize(slots, from, to);
    FillAt(shape, log, to, g, Stretch(slots, from, to), times);
  }

  lemma RebuildNext(shape: Shape, log: seq<Arrival>, g: nat, slots: seq<nat>, from: nat, to: nat, times: nat, hole: nat)
    requires OfSlots(log, g, slots) && Distinct(slots) && from <= to < |log| && to - from + 1 == shape.k
    requires HoldsAt(shape, log, to, g, Stretch(slots, from, to), times)
    requires hole < shape.k && hole !in Stretch(slots, from, to + 1)
    ensures RebuildsAt(shape, log, to) && HoldsAt(shape, log, to + 1, g, {}, times + 1)
  {
    StretchSize(slots, from, to);
    RebuildAt(shape, log, to, g, Stretch(slots, from, to), times, hole);
  }

  /** Distinct slots, fewer than `k`, from a position at which nothing is held. */
  lemma {:induction false} Filling(shape: Shape, log: seq<Arrival>, g: nat, slots: seq<nat>, from: nat, end: nat,
                                   times: nat)
    requires OfSlots(log, g, slots) && Distinct(slots) && from <= end <= |log| && end - from < shape.k
    requires HoldsAt(shape, log, from, g, {}, times)
    ensures HoldsAt(shape, log, end, g, Stretch(slots, from, end), times)
    decreases end
  {
    if from < end {
      Filling(shape, log, g, slots, from, end - 1, times);
      FillNext(shape, log, g, slots, from, end - 1, times);
    }
  }

  /** `k` distinct slots, with a data slot missing among them: the last one has the group rebuilt. */
  lemma RoundRebuilds(shape: Shape, log: seq<Arrival>, g: nat, slots: seq<nat>, from: nat, last: nat, times: nat,
                      hole: nat)
    requires OfSlots(log, g, slots) && Distinct(slots) && from <= last < |log| && last - from + 1 == shape.k
    requires HoldsAt(shape, log, from, g, {}, times)
    requires hole < shape.k && hole !in Stretch(slots, from, last + 1)
    ensures RebuildsAt(shape, log, last) && HoldsAt(shape, log, last + 1, g, {}, times + 1)
  {
    Filling(shape, log, g, slots, from, last, times);
    RebuildNext(shape, log, g, slots, from, last, times, hole);
  }
}
