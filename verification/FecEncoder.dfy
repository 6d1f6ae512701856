/** The sending half of `src/fec.rs`. */
module FecEncoding {
  import opened Base
  import opened Arithmetic
  import opened FecFormat
  import opened ErasureCode
  import opened FecTranscript

  method LongestShard(shards: Shards) returns (maxLen: nat)
    ensures maxLen == MaxLen(shards)
  {
    maxLen := 0;
    for i := 0 to |shards|
      invariant maxLen == MaxLen(shards[..i])
    {
      assert shards[..i + 1][..i] == shards[..i];
      maxLen := Max(maxLen, |shards[i]|);
    }
    assert shards[..|shards|] == shards;
  }

  /** Remainder by `paws` of a 32-bit sum that reaches it at most. */
  method Wrap(sum: u32, paws: u32) returns (r: u32)
    requires 0 < paws && sum <= paws
    ensures r == if sum == paws then 0 else sum
  {
    SmallMod(sum, paws);
    r := sum % paws;
  }

  class FecEncoder {
    const dataShards: nat
    const parityShards: nat
    const shardSize: nat
    const paws: u32
    const codec: Codec
    var next: u32
    var tsLatestPacket: Option<nat>
    var shards: Shards
    /** The calls accepted and the packets returned so far. */
    ghost var log: seq<Call>
    ghost var sent: seq<Bytes>

    /** Every field is a function of the accepted calls. */
    ghost predicate Valid()
      reads this
    {
      FieldsValid() && sent == Sent(codec, log)
    }

    ghost predicate FieldsValid()
      reads this
    {
      Lawful(codec) && Configured() && ValidLog(log) && Reflects(codec.shape, log, next, shards, tsLatestPacket)
    }

    ghost predicate Configured() {
      && codec.shape == Shape(dataShards, parityShards) && codec.shape.Valid()
      && shardSize == codec.shape.n() && paws == codec.shape.Paws()
    }

    constructor (codec: Codec)
      requires Lawful(codec)
      ensures Valid() && log == [] && sent == [] && this.codec == codec
    {
      this.codec := codec;
      dataShards, parityShards := codec.shape.k, codec.shape.p;
      shardSize := codec.shape.k + codec.shape.p;
      var range := NumberRange(codec.shape);
      paws := range;
      next, tsLatestPacket, shards, log, sent := 0, None, [], [], [];
    }

    /** `FecEncoder::new`: fails exactly on shard counts that `validate_shards` refuses. */
    static method New(dataShards: nat, parityShards: nat, codec: Codec) returns (r: Result<FecEncoder, FecError>)
      requires codec.shape == Shape(dataShards, parityShards)
      requires codec.shape.Valid() ==> Lawful(codec)
      ensures r.Ok? <==> codec.shape.Valid()
      ensures r.Ok? <==> 0 < dataShards && 0 < parityShards && dataShards + parityShards <= 256
      ensures r.Ok? ==> fresh(r.value) && r.value.Valid() && r.value.log == [] && r.value.codec == codec
      ensures r.Err? ==> r.error == InvalidShards
    {
      if dataShards == 0 || parityShards == 0 || dataShards + parityShards > 256 {
        return Err(InvalidShards);
      }
      var encoder := new FecEncoder(codec);
      return Ok(encoder);
    }

    /** Writes the next number and moves on; the addition stays within 32 bits. */
    method Seal(flag: nat) returns (header: Bytes)
      requires 0 < paws && next < paws
      modifies this`next
      ensures header == Header(old(next), flag)
      ensures next == if old(next) + 1 == paws then 0 else old(next) + 1
    {
      header := Header(next, flag);
      next := Wrap(next + 1, paws);
    }

    /** Builds the data packet of a payload and keeps its shard. */
    method SealData(payload: Bytes) returns (data: Bytes)
      requires 0 < paws && next < paws
      modifies this`next, this`shards
      ensures data == Header(old(next), TYPE_DATA) + Prefixed(payload)
      ensures shards == old(shards) + [Prefixed(payload)]
      ensures next == if old(next) + 1 == paws then 0 else old(next) + 1
    {
      var header := Seal(TYPE_DATA);
      data := header + (ToLe(|payload| + 2, U16_SIZE) + payload);
      assert data[FEC_HEADER_SIZE..] == Prefixed(payload);
      shards := shards + [data[FEC_HEADER_SIZE..]];
    }

    /** Passes over the parity numbers of a group; the addition stays within 32 bits. */
    method SkipParity(ghost g: nat)
      requires Configured() && next == Start(codec.shape, g) + dataShards
      modifies this`next
      ensures next == Start(codec.shape, g + 1)
    {
      NextStart(codec.shape, g);
      next := Wrap(next + parityShards, paws);
    }

    /** Numbers the parity shards of a full group. */
    method SealParity(word: Shards, ghost start: nat) returns (packets: seq<Bytes>)
      requires Configured() && |word| == shardSize
      requires start + shardSize <= paws && next == start + dataShards
      modifies this`next
      ensures packets == ParityPackets(codec.shape, word, start, parityShards)
      ensures next == if start + shardSize == paws then 0 else start + shardSize
    {
      packets := [];
      for j := 0 to parityShards
        invariant next == if start + dataShards + j == paws then 0 else start + dataShards + j
        invariant packets == ParityPackets(codec.shape, word, start, j)
      {
        var header := Seal(TYPE_PARITY);
        packets := packets + [header + word[dataShards + j]];
      }
    }

    /** Pads the full group, encodes it and seals its parity shards. */
    method EncodeParity(ghost g: nat) returns (r: Result<seq<Bytes>, FecError>)
      requires Lawful(codec) && Configured() && ValidLog(log) && Complete(codec.shape, log, g)
      requires shards == GroupData(codec.shape, log, g) && next == Start(codec.shape, g) + dataShards
      modifies this`next, this`shards
      ensures r == Ok(ParityPackets(codec.shape, Word(codec, log, g), Start(codec.shape, g), parityShards))
      ensures shards == [] && next == Start(codec.shape, g + 1)
    {
      WordIsCodeword(codec, log, g);
      NextStart(codec.shape, g);
      var maxLen := LongestShard(shards);
      var full := Padded(shards, maxLen) + Zeros(parityShards, maxLen);
      shards := [];
      match codec.encode(full) {
        case Err(error) =>
          assert false;
          return Err(CodecFailed(error));
        case Ok(coded) =>
          var packets := SealParity(coded, Start(codec.shape, g));
          return Ok(packets);
      }
    }

    /** A filled group: parity when the payloads are close in time, otherwise its numbers are passed over. */
    method CloseGroup(now: nat, ghost m: nat) returns (r: Result<seq<Bytes>, FecError>)
      requires Lawful(codec) && Configured() && ValidLog(log) && |log| == m + 1 && log[m].now == now
      requires SlotOf(codec.shape, m) + 1 == dataShards && Complete(codec.shape, log, GroupOf(codec.shape, m))
      requires shards == GroupData(codec.shape, log, GroupOf(codec.shape, m))
      requires next == Start(codec.shape, GroupOf(codec.shape, m)) + dataShards
      requires tsLatestPacket == if m == 0 then None else Some(log[m - 1].now)
      modifies this`next, this`shards
      ensures r.Ok? && Output(codec, log, m) == [DataPacket(codec.shape, log, m)] + r.value
      ensures shards == [] && next == Start(codec.shape, GroupOf(codec.shape, m) + 1)
    {
      ghost var g := GroupOf(codec.shape, m);
      var continuous := tsLatestPacket.Some? && Elapsed(now, tsLatestPacket.value) < MAX_FEC_ENCODE_LATENCY;
      assert continuous == SendsParity(codec.shape, log, m);
      if !continuous {
        shards := [];
        SkipParity(g);
        return Ok([]);
      }
      r := EncodeParity(g);
    }

    /** The part of `encode` after the size check. */
    method EncodeAccepted(payload: Bytes, now: nat) returns (r: Result<seq<Bytes>, FecError>)
      requires FieldsValid() && Accepts(payload)
      modifies this`log, this`next, this`shards, this`tsLatestPacket
      ensures FieldsValid() && log == old(log) + [Call(payload, now)]
      ensures r.Ok? && r.value == Output(codec, log, |old(log)|)
    {
      ghost var m, call := |log|, Call(payload, now);
      if SlotOf(codec.shape, m) + 1 < dataShards {
        GroupGrows(codec.shape, log, call, next, shards, tsLatestPacket);
      } else {
        GroupFills(codec.shape, log, call, next, shards, tsLatestPacket);
      }
      log := log + [call];
      var data := SealData(payload);
      assert data == DataPacket(codec.shape, log, m);
      var packets := [data];
      if |shards| == dataShards {
        var closing := CloseGroup(now, m);
        match closing {
          case Err(error) =>
            assert false;
            return Err(error);
          case Ok(parity) =>
            packets := packets + parity;
        }
      }
      tsLatestPacket := Some(now);
      return Ok(packets);
    }

    /**
     * Accepts a payload whose prefixed length fits 16 bits, and then sends exactly what the transcript says;
     * otherwise changes nothing.
     */
    method Encode(payload: Bytes, now: nat) returns (r: Result<seq<Bytes>, FecError>)
      requires Valid()
      modifies this
      ensures Valid()
      ensures Accepts(payload) ==> r.Ok? && log == old(log) + [Call(payload, now)]
      ensures r.Ok? ==> Accepts(payload) && r.value == Output(codec, log, |old(log)|) && sent == old(sent) + r.value
      ensures r.Err? ==> r.error == PayloadTooLarge && unchanged(this)
      ensures r.Ok? <==> |payload| <= 65533
      ensures r.Ok? ==>
        var m := |old(log)|;
        |r.value| == 1 +
          if (m + 1) % dataShards == 0 && m > 0 && now < old(log)[m - 1].now + 500_000_000 then parityShards else 0
    {
      if |payload| + 2 > 0xffff {
        return Err(PayloadTooLarge);
      }
      SentGrows(codec, log, Call(payload, now));
      r := EncodeAccepted(payload, now);
      OutputCount(codec, log, |old(log)|);
      sent := sent + r.value;
    }
  }
}
