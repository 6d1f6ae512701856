/**
 * Sender and receiver together, over a channel that loses, reorders and duplicates packets: the receiver gets any
 * list of packets each of which was sent.
 */
module FecChannel {
  import opened Base
  import opened Arithmetic
  import opened FecFormat
  import opened ErasureCode
  import opened FecTranscript
  import opened FecReception
  import opened FecBounds

  /** The sender has not yet reused a number. */
  ghost predicate InEpoch(shape: Shape, log: seq<Call>)
    requires shape.Valid()
  {
    |log| <= Times(shape.Groups(), shape.k)
  }

  /** The `i`-th payload of group `g`. */
  ghost function PayloadOf(shape: Shape, log: seq<Call>, g: nat, i: nat): Bytes {
    var m := Times(g, shape.k) + i;
    if m < |log| then log[m].payload else []
  }

  ghost function PayloadsOf(shape: Shape, log: seq<Call>, g: nat, indices: seq<nat>): (r: seq<Bytes>)
    ensures |r| == |indices|
  {
    seq(|indices|, j requires 0 <= j < |indices| => PayloadOf(shape, log, g, indices[j]))
  }

  ghost predicate DataIn(shape: Shape, log: seq<Call>, g: nat, i: nat, body: Bytes) {
    Times(g, shape.k) + i < |log| && body == Prefixed(PayloadOf(shape, log, g, i))
  }

  /** `body` is what the sender puts in slot `i` of group `g`. */
  ghost predicate SentIn(codec: Codec, log: seq<Call>, g: nat, i: nat, body: Bytes)
    requires Lawful(codec) && ValidLog(log)
  {
    if i < codec.shape.k then DataIn(codec.shape, log, g, i, body)
    else i < codec.shape.n() && Complete(codec.shape, log, g) && body == Word(codec, log, g)[i]
  }

  ghost predicate Genuine(codec: Codec, log: seq<Call>, a: Arrival)
    requires Lawful(codec) && ValidLog(log)
  {
    Fits(codec.shape, a) && SentIn(codec, log, a.g, a.i, a.body)
  }

  ghost predicate AllGenuine(codec: Codec, log: seq<Call>, arrivals: seq<Arrival>)
    requires Lawful(codec) && ValidLog(log)
  {
    forall j :: 0 <= j < |arrivals| ==> Genuine(codec, log, arrivals[j])
  }

  // ---------- What is sent is read as what was meant ----------

  lemma StartInEpoch(shape: Shape, g: nat)
    requires shape.Valid() && g < shape.Groups()
    ensures Start(shape, g) == Times(g, shape.n())
  {
    Unique(g, shape.Groups(), 0, g);
  }

  /** A number behind the start of a group, with the range of numbers and the group size as plain numbers. */
  lemma NumberPlace(number: nat, groups: nat, n: nat, g: nat, i: nat)
    requires g < groups && i < n && number == Times(g, n) + i
    ensures number < Times(groups, n) && Quot(number, n) == g && Rem(number, n) == i
  {
    Unique(number, n, g, i);
    TimesMonotone(g + 1, groups, n);
  }

  lemma ParseNumbered(shape: Shape, g: nat, i: nat, number: u32, flag: nat, body: Bytes, packet: Bytes)
    requires shape.Valid() && g < shape.Groups() && i < shape.n() && flag < 0x1_0000
    requires number == Start(shape, g) + i && packet == Header(number, flag) + body
    ensures Parse(shape, packet) == Some(Arrival(g, i, body))
  {
    HeaderRoundTrip(number, flag, body);
    StartInEpoch(shape, g);
    NumberPlace(number, shape.Groups(), shape.n(), g, i);
  }

  lemma ParseSealed(shape: Shape, g: nat, i: nat, flag: nat, body: Bytes)
    requires shape.Valid() && g < shape.Groups() && i < shape.n() && flag < 0x1_0000
    ensures Parse(shape, Header(Start(shape, g) + i, flag) + body) == Some(Arrival(g, i, body))
  {
    var number := Start(shape, g) + i;
    ParseNumbered(shape, g, i, number, flag, body, Header(number, flag) + body);
  }

  lemma EpochGroup(shape: Shape, log: seq<Call>, m: nat)
    requires shape.Valid() && InEpoch(shape, log) && m < |log|
    ensures GroupOf(shape, m) < shape.Groups()
  {
    QuotBelow(m, shape.Groups(), shape.k);
  }

  lemma CallIsIn(shape: Shape, log: seq<Call>, m: nat)
    requires shape.k > 0 && m < |log|
    ensures DataIn(shape, log, GroupOf(shape, m), SlotOf(shape, m), Prefixed(log[m].payload))
  {
    QuotRem(m, shape.k);
  }

  lemma {:induction false} ParityMember(shape: Shape, word: Shards, start: nat, j: nat, packet: Bytes) returns (i: nat)
    requires |word| == shape.n() && start + shape.n() <= 0xffff_ffff && j <= shape.p
    requires packet in ParityPackets(shape, word, start, j)
    ensures shape.k <= i < shape.n() && packet == Header(start + i, TYPE_PARITY) + word[i]
  {
    i := shape.k + j - 1;
    if packet != Header(start + i, TYPE_PARITY) + word[i] {
      i := ParityMember(shape, word, start, j - 1, packet);
    }
  }

  ghost predicate ReadsGenuine(codec: Codec, log: seq<Call>, packet: Bytes)
    requires Lawful(codec) && ValidLog(log)
  {
    var parsed := Parse(codec.shape, packet);
    parsed.Some? && Genuine(codec, log, parsed.value)
  }

  lemma SlotFits(shape: Shape, m: nat)
    requires shape.Valid()
    ensures SlotOf(shape, m) < shape.n()
  {}

  lemma ParseData(shape: Shape, log: seq<Call>, m: nat)
    requires shape.Valid() && ValidLog(log) && m < |log| && GroupOf(shape, m) < shape.Groups()
    ensures Parse(shape, DataPacket(shape, log, m)) ==
      Some(Arrival(GroupOf(shape, m), SlotOf(shape, m), Prefixed(log[m].payload)))
  {
    var g, i, body := GroupOf(shape, m), SlotOf(shape, m), Prefixed(log[m].payload);
    SlotFits(shape, m);
    ParseNumbered(shape, g, i, DataNumber(shape, m), TYPE_DATA, body, DataPacket(shape, log, m));
  }

  lemma DataGenuine(codec: Codec, log: seq<Call>, m: nat)
    requires Lawful(codec) && ValidLog(log) && InEpoch(codec.shape, log) && m < |log|
    ensures ReadsGenuine(codec, log, DataPacket(codec.shape, log, m))
  {
    EpochGroup(codec.shape, log, m);
    ParseData(codec.shape, log, m);
    CallIsIn(codec.shape, log, m);
  }

  lemma ParityGenuine(codec: Codec, log: seq<Call>, g: nat, packet: Bytes)
    requires Lawful(codec) && ValidLog(log) && Complete(codec.shape, log, g) && g < codec.shape.Groups()
    requires packet in ParityPackets(codec.shape, Word(codec, log, g), Start(codec.shape, g), codec.shape.p)
    ensures ReadsGenuine(codec, log, packet)
  {
    var word := Word(codec, log, g);
    var i := ParityMember(codec.shape, word, Start(codec.shape, g), codec.shape.p, packet);
    ParseSealed(codec.shape, g, i, TYPE_PARITY, word[i]);
    assert Genuine(codec, log, Arrival(g, i, word[i]));
  }

  /** Every packet sent is read back as the group, slot and body it was made for. */
  lemma OutputGenuine(codec: Codec, log: seq<Call>, m: nat, packet: Bytes)
    requires Lawful(codec) && ValidLog(log) && InEpoch(codec.shape, log) && m < |log| && packet in Output(codec, log, m)
    ensures ReadsGenuine(codec, log, packet)
  {
    if packet == DataPacket(codec.shape, log, m) {
      DataGenuine(codec, log, m);
    } else {
      EpochGroup(codec.shape, log, m);
      ParityGenuine(codec, log, GroupOf(codec.shape, m), packet);
    }
  }

  lemma SentGenuine(codec: Codec, log: seq<Call>, packet: Bytes)
    requires Lawful(codec) && ValidLog(log) && InEpoch(codec.shape, log) && packet in Sent(codec, log)
    ensures ReadsGenuine(codec, log, packet)
  {
    var m := SentBy(codec, log, packet);
    OutputGenuine(codec, log, m, packet);
  }

  /** The receiver's record of a delivered list of packets. */
  function Arrivals(shape: Shape, trace: seq<Bytes>): (arrivals: seq<Arrival>)
    requires shape.Valid()
    ensures AllFit(shape, arrivals)
  {
    if trace == [] then [] else
    var rest := Arrivals(shape, trace[..|trace| - 1]);
    match Parse(shape, trace[|trace| - 1])
    case Some(a) => rest + [a]
    case None => rest
  }

  ghost predicate Carries(codec: Codec, log: seq<Call>, trace: seq<Bytes>)
    requires Lawful(codec) && ValidLog(log)
  {
    forall j :: 0 <= j < |trace| ==> trace[j] in Sent(codec, log)
  }

  lemma {:induction false} ArrivalsGenuine(codec: Codec, log: seq<Call>, trace: seq<Bytes>)
    requires Lawful(codec) && ValidLog(log) && InEpoch(codec.shape, log) && Carries(codec, log, trace)
    ensures AllGenuine(codec, log, Arrivals(codec.shape, trace))
  {
    if trace != [] {
      ArrivalsGenuine(codec, log, trace[..|trace| - 1]);
      SentGenuine(codec, log, trace[|trace| - 1]);
    }
  }

  // ---------- What is held is genuine, so a full group is a part of the codeword ----------

  ghost predicate SlotsGenuine(codec: Codec, log: seq<Call>, g: nat, slots: Slots)
    requires Lawful(codec) && ValidLog(log)
  {
    |slots| == codec.shape.n() &&
    forall i :: 0 <= i < |slots| && slots[i].Some? ==> SentIn(codec, log, g, i, slots[i].value)
  }

  lemma AdmitGenuine(codec: Codec, log: seq<Call>, slots: Slots, a: Arrival)
    requires Lawful(codec) && ValidLog(log) && SlotsGenuine(codec, log, a.g, slots) && Genuine(codec, log, a)
    ensures SlotsGenuine(codec, log, a.g, slots[a.i := Some(a.body)])
    ensures SlotsGenuine(codec, log, a.g, Admit(codec.shape, slots, a))
  {}

  lemma {:induction false} HeldGenuine(codec: Codec, log: seq<Call>, arrivals: seq<Arrival>, g: nat)
    requires Lawful(codec) && ValidLog(log) && AllGenuine(codec, log, arrivals)
    ensures AllFit(codec.shape, arrivals) && SlotsGenuine(codec, log, g, Held(codec.shape, arrivals, g))
  {
    assert forall j :: 0 <= j < |arrivals| ==> Genuine(codec, log, arrivals[j]);
    if arrivals != [] {
      var init, a := arrivals[..|arrivals| - 1], arrivals[|arrivals| - 1];
      HeldGenuine(codec, log, init, g);
      assert Genuine(codec, log, a);
      if a.g == g {
        AdmitGenuine(codec, log, Held(codec.shape, init, g), a);
      }
    }
  }

  /** A missing data shard means a parity shard is present, and it fixes the common length. */
  lemma PaddingAgrees(codec: Codec, log: seq<Call>, g: nat, full: Slots, hole: nat)
    requires Lawful(codec) && ValidLog(log) && SlotsGenuine(codec, log, g, full)
    requires Count(full) >= codec.shape.k && hole < codec.shape.k && full[hole].None?
    ensures Complete(codec.shape, log, g)
    ensures MaxSlotLen(full) == Width(codec.shape, log, g)
    ensures Agrees(PaddedSlots(full, MaxSlotLen(full)), Word(codec, log, g))
  {
    var parity := Pigeonhole(full, codec.shape.k, hole);
    assert SentIn(codec, log, g, parity, full[parity].value);
    var data, len, word := GroupData(codec.shape, log, g), Width(codec.shape, log, g), Word(codec, log, g);
    WordIsCodeword(codec, log, g);
    MaxLenBounds(data);
    forall i | 0 <= i < |full| && full[i].Some?
      ensures |full[i].value| <= len && Resize(full[i].value, len) == word[i]
    {
      assert SentIn(codec, log, g, i, full[i].value);
      if i < codec.shape.k {
        assert full[i].value == data[i];
        assert word[i] == word[..codec.shape.k][i] == PaddedGroup(codec.shape, log, g)[i];
      }
    }
    MaxSlotLenIs(full, len, parity);
  }

  lemma PaddedRead(shape: Shape, log: seq<Call>, g: nat, i: nat)
    requires ValidLog(log) && Complete(shape, log, g) && i < shape.k
    ensures Strip(PaddedGroup(shape, log, g)[i]) == Some(PayloadOf(shape, log, g, i))
  {
    var data := GroupData(shape, log, g);
    MaxLenBounds(data);
    assert |data[i]| <= Width(shape, log, g);
    StripPadded(PayloadOf(shape, log, g, i), Width(shape, log, g));
  }

  lemma PayloadsOfSnoc(shape: Shape, log: seq<Call>, g: nat, missing: seq<nat>, i: nat)
    ensures PayloadsOf(shape, log, g, missing + [i]) ==
      PayloadsOf(shape, log, g, missing) + [PayloadOf(shape, log, g, i)]
  {}

  /** The first `k` slots hold the padded data shards of the group. */
  ghost predicate HoldsData(shape: Shape, log: seq<Call>, g: nat, slots: Slots)
    requires ValidLog(log) && Complete(shape, log, g)
  {
    |slots| >= shape.k && forall i :: 0 <= i < shape.k ==> slots[i] == Some(PaddedGroup(shape, log, g)[i])
  }

  lemma PayloadsSnoc(slots: Slots, missing: seq<nat>, i: nat, payload: Bytes)
    requires forall j :: 0 <= j < |missing| ==> missing[j] < |slots|
    requires i < |slots| && slots[i].Some? && Strip(slots[i].value) == Some(payload)
    ensures forall j :: 0 <= j < |missing + [i]| ==> (missing + [i])[j] < |slots|
    ensures Payloads(slots, missing + [i]) == Payloads(slots, missing) + [payload]
  {
    assert (missing + [i])[..|missing|] == missing;
  }

  lemma {:induction false} PayloadsRead(shape: Shape, log: seq<Call>, g: nat, slots: Slots, missing: seq<nat>)
    requires ValidLog(log) && Complete(shape, log, g) && HoldsData(shape, log, g, slots)
    requires forall j :: 0 <= j < |missing| ==> missing[j] < shape.k
    ensures Payloads(slots, missing) == PayloadsOf(shape, log, g, missing)
    decreases |missing|
  {
    if missing != [] {
      var init, i := missing[..|missing| - 1], missing[|missing| - 1];
      PayloadsRead(shape, log, g, slots, init);
      PaddedRead(shape, log, g, i);
      PayloadsSnoc(slots, init, i, PayloadOf(shape, log, g, i));
      PayloadsOfSnoc(shape, log, g, init, i);
      assert init + [i] == missing;
    }
  }

  lemma {:induction false} MissingAreHoles(slots: Slots, k: nat)
    requires k <= |slots|
    ensures forall i :: i in Missing(slots, k) <==> 0 <= i < k && slots[i].None?
    ensures forall s, t :: 0 <= s < t < |Missing(slots, k)| ==> Missing(slots, k)[s] < Missing(slots, k)[t]
  {
    if k > 0 {
      MissingAreHoles(slots, k - 1);
    }
  }

  /** Reconstruction of a group that holds `k` genuine shards gives exactly the missing payloads, in order. */
  lemma RebuiltExactly(codec: Codec, log: seq<Call>, g: nat, full: Slots)
    requires Lawful(codec) && ValidLog(log) && SlotsGenuine(codec, log, g, full)
    requires Count(full) >= codec.shape.k
    ensures Rebuilt(codec, full) == Ok(PayloadsOf(codec.shape, log, g, Missing(full, codec.shape.k)))
  {
    var missing := Missing(full, codec.shape.k);
    if missing != [] {
      MissingAreHoles(full, codec.shape.k);
      assert missing[0] in missing;
      PaddingAgrees(codec, log, g, full, missing[0]);
      WordIsCodeword(codec, log, g);
      var padded := PaddedSlots(full, MaxSlotLen(full));
      var data := PaddedGroup(codec.shape, log, g);
      CountSame(full, padded);
      assert Restores(codec, padded, data);
      PayloadsRead(codec.shape, log, g, codec.reconstruct(padded).value, missing);
    }
  }

  /**
   * Recovery is sound on every trace: an answer is either empty or the payloads, byte for byte and in order, of
   * data slots of the packet's own group that were not held. No call fails.
   */
  lemma RecoverySound(codec: Codec, log: seq<Call>, trace: seq<Bytes>, packet: Bytes)
    requires Lawful(codec) && ValidLog(log) && InEpoch(codec.shape, log)
    requires Carries(codec, log, trace + [packet])
    ensures Parse(codec.shape, packet).Some?
    ensures var arrivals, a := Arrivals(codec.shape, trace), Parse(codec.shape, packet).value;
      var full := Held(codec.shape, arrivals, a.g)[a.i := Some(a.body)];
      Decoded(codec, arrivals, a) ==
        Ok(if Completes(codec.shape, arrivals, a)
           then PayloadsOf(codec.shape, log, a.g, Missing(full, codec.shape.k)) else [])
  {
    assert forall j :: 0 <= j < |trace| ==> (trace + [packet])[j] == trace[j];
    assert (trace + [packet])[|trace|] == packet;
    ArrivalsGenuine(codec, log, trace);
    SentGenuine(codec, log, packet);
    var arrivals, a := Arrivals(codec.shape, trace), Parse(codec.shape, packet).value;
    HeldGenuine(codec, log, arrivals, a.g);
    if Completes(codec.shape, arrivals, a) {
      RebuiltExactly(codec, log, a.g, Held(codec.shape, arrivals, a.g)[a.i := Some(a.body)]);
    }
  }
}
