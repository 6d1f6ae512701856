/** The receiving half of `src/fec.rs`. */
module FecDecoding {
  import opened Base
  import opened Arithmetic
  import opened FecFormat
  import opened ErasureCode
  import opened FecReception
  import opened FecBounds

  /** `u32::wrapping_sub`. */
  function WrappingSub(a: u32, b: u32): u32 {
    if a >= b then a - b else a - b + 0x1_0000_0000
  }

  method CountPresent(shards: Slots) returns (present: nat)
    ensures present == Count(shards)
  {
    present := 0;
    for i := 0 to |shards|
      invariant present == Count(shards[..i])
    {
      assert shards[..i + 1][..i] == shards[..i];
      if shards[i].Some? {
        present := present + 1;
      }
    }
    assert shards[..|shards|] == shards;
  }

  /** One pass over a complete group: which data shards are missing, and how long the longest shard is. */
  method Survey(shards: Slots, dataShards: nat) returns (missingData: seq<nat>, maxLen: nat)
    requires dataShards <= |shards|
    ensures missingData == Missing(shards, dataShards) && maxLen == MaxSlotLen(shards)
  {
    missingData, maxLen := [], 0;
    for idx := 0 to |shards|
      invariant missingData == Missing(shards, Min(idx, dataShards))
      invariant maxLen == MaxSlotLen(shards[..idx])
    {
      assert shards[..idx + 1][..idx] == shards[..idx];
      if idx < dataShards && shards[idx].None? {
        missingData := missingData + [idx];
      }
      match shards[idx] {
        case Some(data) => maxLen := Max(maxLen, |data|);
        case None =>
      }
    }
    assert shards[..|shards|] == shards;
  }

  method ResizePresent(shards: Slots, maxLen: nat) returns (padded: Slots)
    ensures padded == PaddedSlots(shards, maxLen)
  {
    padded := shards;
    for i := 0 to |shards|
      invariant |padded| == |shards|
      invariant forall j :: 0 <= j < i ==> padded[j] == PaddedSlots(shards, maxLen)[j]
      invariant forall j :: i <= j < |shards| ==> padded[j] == shards[j]
    {
      if padded[i].Some? {
        padded := padded[i := Some(Resize(padded[i].value, maxLen))];
      }
    }
  }

  method CollectPayloads(shards: Slots, missingData: seq<nat>) returns (recovered: seq<Bytes>)
    requires forall j :: 0 <= j < |missingData| ==> missingData[j] < |shards|
    ensures recovered == Payloads(shards, missingData)
  {
    recovered := [];
    for j := 0 to |missingData|
      invariant recovered == Payloads(shards, missingData[..j])
    {
      assert missingData[..j + 1][..j] == missingData[..j];
      match shards[missingData[j]] {
        case Some(data) =>
          if |data| < 2 {
            continue;
          }
          var size := FromLe(data[..U16_SIZE]);
          if size >= 2 && size <= |data| {
            recovered := recovered + [data[2..size]];
          }
        case None =>
      }
    }
    assert missingData[..|missingData|] == missingData;
  }

  class FecDecoder {
    const dataShards: nat
    const shardSize: nat
    const paws: u32
    const codec: Codec
    var shardSet: map<u32, Slots>
    var newestShardId: u32
    /** The in-range packets received so far. */
    ghost var log: seq<Arrival>

    ghost predicate Configured() {
      && codec.shape.Valid() && KeepsAllPlaces(codec)
      && dataShards == codec.shape.k && shardSize == codec.shape.n() && paws == codec.shape.Paws()
    }

    /** The stored sets are the non-empty groups of the reception record. */
    ghost predicate Valid()
      reads this
    {
      && Configured() && AllFit(codec.shape, log)
      && newestShardId == Newest(log) < 0x8000_0000
      && Mirrors(codec.shape, log, shardSet)
    }

    constructor (codec: Codec)
      requires codec.shape.Valid() && KeepsAllPlaces(codec)
      ensures Valid() && log == [] && this.codec == codec
    {
      this.codec := codec;
      dataShards, shardSize := codec.shape.k, codec.shape.k + codec.shape.p;
      var range := NumberRange(codec.shape);
      paws := range;
      shardSet, newestShardId, log := map[], 0, [];
    }

    /** `FecDecoder::new`: fails exactly on shard counts that `validate_shards` refuses. */
    static method New(dataShards: nat, parityShards: nat, codec: Codec) returns (r: Result<FecDecoder, FecError>)
      requires codec.shape == Shape(dataShards, parityShards)
      requires codec.shape.Valid() ==> KeepsAllPlaces(codec)
      ensures r.Ok? <==> codec.shape.Valid()
      ensures r.Ok? <==> 0 < dataShards && 0 < parityShards && dataShards + parityShards <= 256
      ensures r.Ok? ==> fresh(r.value) && r.value.Valid() && r.value.log == [] && r.value.codec == codec
      ensures r.Err? ==> r.error == InvalidShards
    {
      if dataShards == 0 || parityShards == 0 || dataShards + parityShards > 256 {
        return Err(InvalidShards);
      }
      var decoder := new FecDecoder(codec);
      return Ok(decoder);
    }

    method DiscardOldShards()
      requires Configured()
      requires forall g :: g in shardSet ==> g <= newestShardId
      modifies this`shardSet
      ensures shardSet == Pruned(codec.shape, old(shardSet), newestShardId)
      ensures shardSet == map g | g in old(shardSet) && newestShardId <= g + 3 * shardSize :: old(shardSet)[g]
    {
      shardSet := map g | g in shardSet && WrappingSub(newestShardId, g) <= MAX_SHARD_SETS * shardSize :: shardSet[g];
    }

    /** The 32-bit comparison that finds a newer group is the plain one, as group ids stay below 2^31. */
    method NoteNewest(shardId: u32)
      requires shardId < 0x8000_0000 && newestShardId < 0x8000_0000
      modifies this`newestShardId
      ensures newestShardId == Max(old(newestShardId), shardId)
    {
      if WrappingSub(shardId, newestShardId) < 0x8000_0000 && shardId > newestShardId {
        newestShardId := shardId;
      }
    }

    /** Splits a number into group id and slot. */
    method Locate(number: u32) returns (shardId: u32, shardIndex: nat)
      requires Configured()
      ensures shardId == Quot(number, shardSize) && shardIndex == Rem(number, shardSize)
    {
      DivModOperators(number, shardSize);
      QuotRem(number, shardSize);
      shardId, shardIndex := number / shardSize, number % shardSize;
    }

    /** However packets came, the sets held are of the last `3n` groups and partly filled. */
    lemma Bounded()
      requires Valid()
      ensures |shardSet| <= 3 * shardSize + 1
      ensures forall g :: g in shardSet ==>
        g <= newestShardId <= g + 3 * shardSize && 1 <= Count(shardSet[g]) < dataShards
    {
      StateBounded(codec.shape, log, shardSet);
    }

    /** Answers every packet as the reception record says, and keeps the record. */
    method Decode(packet: Bytes) returns (r: Result<seq<Bytes>, FecError>)
      requires Valid()
      modifies this
      ensures Valid()
      ensures r == Answer(codec, old(log), packet)
      ensures log == old(log) + Recorded(codec.shape, packet)
      ensures Parse(codec.shape, packet).None? ==> unchanged(this)
    {
      if |packet| < FEC_HEADER_SIZE {
        return Err(PacketTooShort);
      }
      var number := SeqId(packet);
      if number >= paws {
        return Ok([]);
      }
      var shardId, shardIndex := Locate(number);
      var a := Arrival(shardId, shardIndex, packet[FEC_HEADER_SIZE..]);
      assert Parse(codec.shape, packet) == Some(a);
      r := Store(a);
    }

    lemma KeysNotNewer()
      requires Valid()
      ensures forall g :: g in shardSet ==> g <= Newest(log)
    {
      forall g | g in shardSet
        ensures g <= Newest(log)
      {
        assert StoredRight(codec.shape, log, shardSet, g);
        HeldBounded(codec.shape, log, g);
      }
    }

    /** The rest of `decode`, after a new shard has been stored: complete the group or wait, and prune. */
    method Conclude(a: Arrival, shard: Slots, ghost sets: map<u32, Slots>) returns (r: Result<seq<Bytes>, FecError>)
      requires Configured() && AllFit(codec.shape, log) && Fits(codec.shape, a)
      requires Mirrors(codec.shape, log, sets) && shardSet == sets[a.g := shard]
      requires newestShardId == Newest(log + [a]) < 0x8000_0000
      requires forall g :: g in shardSet ==> g <= newestShardId
      requires Held(codec.shape, log, a.g)[a.i].None?
      requires shard == Held(codec.shape, log, a.g)[a.i := Some(a.body)]
      modifies this`shardSet
      ensures r == Decoded(codec, log, a)
      ensures AllFit(codec.shape, log + [a]) && Mirrors(codec.shape, log + [a], shardSet)
    {
      StoreKeeps(codec.shape, log, sets, a);
      var present := CountPresent(shard);
      if present < dataShards {
        DiscardOldShards();
        return Ok([]);
      }
      shardSet := shardSet - {a.g};
      assert shardSet == sets - {a.g};
      var missingData, maxLen := Survey(shard, dataShards);
      if missingData == [] {
        DiscardOldShards();
        return Ok([]);
      }
      var padded := ResizePresent(shard, maxLen);
      assert KeepsPlaces(codec, padded);
      match codec.reconstruct(padded) {
        case Err(error) =>
          CompletionKeeps(codec.shape, log, sets, a);
          return Err(CodecFailed(error));
        case Ok(slots) =>
          var recovered := CollectPayloads(slots, missingData);
          DiscardOldShards();
          return Ok(recovered);
      }
    }

    /** `decode` once the packet is known to carry a number in range. */
    method Store(a: Arrival) returns (r: Result<seq<Bytes>, FecError>)
      requires Valid() && Fits(codec.shape, a)
      modifies this
      ensures Valid()
      ensures r == Decoded(codec, old(log), a) && log == old(log) + [a]
    {
      LookupIsHeld(codec.shape, log, shardSet, a.g);
      KeysNotNewer();
      HeldStep(codec.shape, log, a, a.g);
      var shard := if a.g in shardSet then shardSet[a.g] else NoShards(shardSize);
      if shard[a.i].Some? {
        DuplicateKeeps(codec.shape, log, shardSet, a);
        shardSet := shardSet[a.g := shard];
        log := log + [a];
        return Ok([]);
      }
      StoreKeeps(codec.shape, log, shardSet, a);
      ghost var sets := shardSet;
      shard := shard[a.i := Some(a.body)];
      shardSet := shardSet[a.g := shard];
      NoteNewest(a.g);
      r := Conclude(a, shard, sets);
      log := log + [a];
    }
  }
}
