/** The window of groups a receiver works on, in plain numbers: `3 * (k + p)` groups behind the newest. */
module FecWindow {
  import opened Base
  import opened ErasureCode
  import opened FecTranscript
  import opened FecReception
  import opened FecBounds
  import opened FecChannel
  import opened FecRecovery
  import opened FecWire

  /** No arrival is of a group beyond `limit`. */
  ghost predicate NoneBeyond(arrivals: seq<Arrival>, limit: nat) {
    forall j :: 0 <= j < |arrivals| ==> arrivals[j].g <= limit
  }

  lemma NewestWithin(arrivals: seq<Arrival>, limit: nat)
    ensures Newest(arrivals) <= limit <==> NoneBeyond(arrivals, limit)
  {
    NewestIsMaximum(arrivals);
  }

  /**
   * Recovery within the window: as long as nothing of a group beyond `g + 3 * (k + p)` has arrived, the `k`-th distinct
   * packet of group `g` is answered with exactly the payloads that have not arrived.
   */
  lemma RecoveredWithin(codec: Codec, log: seq<Call>, trace: seq<Bytes>, packet: Bytes, k: nat, p: nat)
    requires Lawful(codec) && ValidLog(log) && InEpoch(codec.shape, log) && Carries(codec, log, trace + [packet])
    requires codec.shape == Shape(k, p) && Parse(codec.shape, packet).Some?
    requires var arrivals, a := Arrivals(codec.shape, trace), Parse(codec.shape, packet).value;
      && a.i !in Arrived(arrivals, a.g) && |Arrived(arrivals, a.g)| + 1 == k
      && NoneBeyond(arrivals, a.g + 3 * (k + p))
    ensures var arrivals, a := Arrivals(codec.shape, trace), Parse(codec.shape, packet).value;
      Decoded(codec, arrivals, a) ==
        Ok(PayloadsOf(codec.shape, log, a.g, AbsentBelow(k, Arrived(arrivals, a.g) + {a.i})))
  {
    NewestWithin(Arrivals(codec.shape, trace), Parse(codec.shape, packet).value.g + 3 * (k + p));
    EndToEndRecovery(codec, log, trace, packet);
  }

  /** Loss beyond it: with two data shards or more, such a packet after anything of a later group is dropped. */
  lemma LostBeyond(codec: Codec, arrivals: seq<Arrival>, a: Arrival, k: nat, p: nat)
    requires codec.shape == Shape(k, p) && codec.shape.Valid() && KeepsAllPlaces(codec) && k >= 2
    requires AllFit(codec.shape, arrivals) && Fits(codec.shape, a) && !NoneBeyond(arrivals, a.g + 3 * (k + p))
    ensures Decoded(codec, arrivals, a) == Ok([])
    ensures AllFit(codec.shape, arrivals + [a]) && Count(Held(codec.shape, arrivals + [a], a.g)) == 0
  {
    NewestWithin(arrivals, a.g + 3 * (k + p));
    LateGroupIsLost(codec, arrivals, a);
    CountZero(NoShards(codec.shape.n()));
  }

  /** What is stored: groups in `[newest - 3 * (k + p), newest]` with 1 to `k - 1` shards each, and no more sets. */
  lemma StoredWithin(shape: Shape, log: seq<Arrival>, sets: map<u32, Slots>, k: nat, p: nat, newest: nat)
    requires shape == Shape(k, p) && k > 0 && AllFit(shape, log) && Mirrors(shape, log, sets)
    requires NoneBeyond(log, newest) && exists j :: 0 <= j < |log| && log[j].g == newest
    ensures forall g :: g in sets ==> newest - 3 * (k + p) <= g <= newest && 1 <= Count(sets[g]) <= k - 1
    ensures |sets| <= 3 * (k + p) + 1
  {
    NewestWithin(log, newest);
    NewestIsMaximum(log);
    StateBounded(shape, log, sets);
  }

  /** A slot keeps the first body that arrived for it; a duplicate changes nothing and is answered with nothing. */
  lemma FirstBodyStays(codec: Codec, log: seq<Arrival>, a: Arrival, g: nat)
    requires codec.shape.Valid() && KeepsAllPlaces(codec) && AllFit(codec.shape, log) && Fits(codec.shape, a)
    requires Held(codec.shape, log, a.g)[a.i].Some?
    ensures Decoded(codec, log, a) == Ok([])
    ensures AllFit(codec.shape, log + [a]) && Held(codec.shape, log + [a], g) == Held(codec.shape, log, g)
  {
    HeldStep(codec.shape, log, a, g);
    HeldBounded(codec.shape, log, a.g);
    HeldBounded(codec.shape, log, g);
  }

  /** One more missing slot adds the payload its first two bytes announce, or nothing if that does not fit. */
  lemma OneMorePayload(slots: Slots, missing: seq<nat>, i: nat)
    requires i < |slots| && forall j :: 0 <= j < |missing| ==> missing[j] < |slots|
    ensures forall j :: 0 <= j < |missing + [i]| ==> (missing + [i])[j] < |slots|
    ensures Payloads(slots, []) == []
    ensures Payloads(slots, missing + [i]) == Payloads(slots, missing) +
      if slots[i].Some? && |slots[i].value| >= 2 && 2 <= Le16(slots[i].value, 0) <= |slots[i].value|
      then [slots[i].value[2..Le16(slots[i].value, 0)]] else []
  {
    assert (missing + [i])[..|missing|] == missing;
    if slots[i].Some? {
      StripBytes(slots[i].value);
    }
  }

  /**
   * What an in-range packet is answered with, genuine or not: nothing unless it completes its group with a data slot
   * missing; then the code's failure if it fails, and else the payloads its missing data slots announce.
   */
  lemma DecodedExactly(codec: Codec, log: seq<Arrival>, a: Arrival)
    requires codec.shape.Valid() && KeepsAllPlaces(codec) && AllFit(codec.shape, log) && Fits(codec.shape, a)
    ensures var full := Held(codec.shape, log, a.g)[a.i := Some(a.body)];
      var missing, r := Missing(full, codec.shape.k), Decoded(codec, log, a);
      if !Rebuilds(codec.shape, log, a) then r == Ok([]) else
      var rebuilt := codec.reconstruct(PaddedSlots(full, MaxSlotLen(full)));
      if rebuilt.Err? then r == Err(CodecFailed(rebuilt.error))
      else |rebuilt.value| == |full| && r == Ok(Payloads(rebuilt.value, missing))
  {
    var full := Held(codec.shape, log, a.g)[a.i := Some(a.body)];
    assert KeepsPlaces(codec, PaddedSlots(full, MaxSlotLen(full)));
  }
}
