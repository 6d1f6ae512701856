/** The erasure code behind FEC, as a value: two operations and the one law the FEC layer relies on. */
module ErasureCode {
  import opened Base
  import opened Arithmetic

  type Shards = seq<Bytes>
  type Slots = seq<Option<Bytes>>

  /** `k` data shards and `p` parity shards a group, as `validate_shards` accepts them. */
  datatype Shape = Shape(k: nat, p: nat) {
    function n(): nat { k + p }

    predicate Valid() {
      k > 0 && p > 0 && k + p <= 256
    }

    /** The groups that have 32-bit numbers; at least 2^23 and, since a group has two packets or more, below 2^31. */
    function Groups(): (g: nat)
      requires Valid()
      ensures 0 < g < 0x8000_0000
      ensures Times(g, n()) <= 0xffff_ffff
    {
      QuotRem(0xffff_ffff, n());
      DivModOperators(0xffff_ffff, n());
      Quot(0xffff_ffff, n())
    }

    /** The numbers in use are `0..Paws()`, a whole number of groups. */
    function Paws(): (paws: u32)
      requires Valid()
      ensures 0 < paws
    {
      TimesMonotone(1, Groups(), n());
      Times(Groups(), n())
    }
  }

  /** The range of numbers as both ends compute it: 32 bits, cut to whole groups. */
  method NumberRange(shape: Shape) returns (paws: u32)
    requires shape.Valid()
    ensures paws == shape.Paws()
  {
    DivModOperators(0xffff_ffff, shape.n());
    TimesOperator(shape.Groups(), shape.n());
    var shardSize := shape.k + shape.p;
    paws := 0xffff_ffff / shardSize * shardSize;
  }

  datatype CodecError = EmptyShard | IncorrectShardSize | TooFewShards

  datatype FecError = InvalidShards | PayloadTooLarge | PacketTooShort | CodecFailed(error: CodecError)

  /** `encode` fills the parity places of `n` equally long shards; `reconstruct` fills missing data places. */
  datatype Codec = Codec(shape: Shape,
                         encode: Shards -> Result<Shards, CodecError>,
                         reconstruct: Slots -> Result<Slots, CodecError>)

  function MaxLen(shards: Shards): nat {
    if shards == [] then 0 else Max(MaxLen(shards[..|shards| - 1]), |shards[|shards| - 1]|)
  }

  function MaxSlotLen(slots: Slots): nat {
    if slots == [] then 0 else
    var rest := MaxSlotLen(slots[..|slots| - 1]);
    match slots[|slots| - 1]
    case Some(shard) => Max(rest, |shard|)
    case None => rest
  }

  function Count(slots: Slots): (c: nat)
    ensures c <= |slots|
  {
    if slots == [] then 0
    else Count(slots[..|slots| - 1]) + if slots[|slots| - 1].Some? then 1 else 0
  }

  function Padded(shards: Shards, len: nat): (r: Shards)
    ensures |r| == |shards|
  {
    seq(|shards|, i requires 0 <= i < |shards| => Resize(shards[i], len))
  }

  function PaddedSlots(slots: Slots, len: nat): (r: Slots)
    ensures |r| == |slots|
  {
    seq(|slots|, i requires 0 <= i < |slots| =>
      if slots[i].Some? then Some(Resize(slots[i].value, len)) else None)
  }

  function Zeros(count: nat, len: nat): (r: Shards)
    ensures |r| == count
  {
    seq(count, _ => Resize([], len))
  }

  predicate AllOfLength(shards: Shards, len: nat) {
    forall i :: 0 <= i < |shards| ==> |shards[i]| == len
  }

  /** What `encode` is given: `k` non-empty data shards of one length. */
  ghost predicate Encodable(shape: Shape, data: Shards, len: nat) {
    |data| == shape.k && len > 0 && AllOfLength(data, len)
  }

  function EncodeInput(shape: Shape, data: Shards, len: nat): Shards {
    data + Zeros(shape.p, len)
  }

  /** `word` is what encoding `data` yields: the data themselves, then `p` parity shards of the same length. */
  ghost predicate Codeword(codec: Codec, data: Shards, len: nat, word: Shards) {
    && codec.encode(EncodeInput(codec.shape, data, len)) == Ok(word)
    && |word| == codec.shape.n()
    && word[..codec.shape.k] == data
    && AllOfLength(word, len)
  }

  ghost predicate Encodes(codec: Codec, data: Shards, len: nat) {
    var r := codec.encode(EncodeInput(codec.shape, data, len));
    r.Ok? && Codeword(codec, data, len, r.value)
  }

  ghost predicate Agrees(slots: Slots, word: Shards) {
    |slots| == |word| && forall i :: 0 <= i < |slots| && slots[i].Some? ==> slots[i].value == word[i]
  }

  ghost predicate Restores(codec: Codec, slots: Slots, data: Shards) {
    var r := codec.reconstruct(slots);
    r.Ok? && |r.value| == |slots| && forall i :: 0 <= i < |data| && i < |slots| ==> r.value[i] == Some(data[i])
  }

  ghost predicate KeepsPlaces(codec: Codec, slots: Slots) {
    codec.reconstruct(slots).Ok? ==> |codec.reconstruct(slots).value| == |slots|
  }

  ghost predicate KeepsAllPlaces(codec: Codec) {
    forall slots :: KeepsPlaces(codec, slots)
  }

  /**
   * The law of a `k`-of-`n` erasure code: encoding never fails on equally long non-empty shards, and any `k`
   * places that agree with a codeword give all its data shards back.
   */
  ghost predicate Lawful(codec: Codec) {
    && codec.shape.Valid()
    && (forall data, len: nat :: Encodable(codec.shape, data, len) ==> Encodes(codec, data, len))
    && KeepsAllPlaces(codec)
    && (forall data, len: nat, word, slots ::
          && Encodable(codec.shape, data, len) && Codeword(codec, data, len, word)
          && Agrees(slots, word) && Count(slots) >= codec.shape.k
          ==> Restores(codec, slots, data))
  }

  lemma {:induction false} CountStep(slots: Slots, i: nat, shard: Bytes)
    requires i < |slots| && slots[i].None?
    ensures Count(slots[i := Some(shard)]) == Count(slots) + 1
  {
    var last := |slots| - 1;
    var after := slots[i := Some(shard)];
    if i < last {
      CountStep(slots[..last], i, shard);
      assert after[..last] == slots[..last][i := Some(shard)];
    } else {
      assert after[..last] == slots[..last];
    }
  }

  lemma {:induction false} CountZero(slots: Slots)
    ensures Count(slots) == 0 <==> forall i :: 0 <= i < |slots| ==> slots[i].None?
  {
    if slots != [] {
      var init := slots[..|slots| - 1];
      CountZero(init);
      assert forall i :: 0 <= i < |init| ==> init[i] == slots[i];
    }
  }

  /** Two partly filled groups with the same places filled count the same. */
  lemma {:induction false} CountSame(a: Slots, b: Slots)
    requires |a| == |b| && forall i :: 0 <= i < |a| ==> a[i].Some? == b[i].Some?
    ensures Count(a) == Count(b)
  {
    if a != [] {
      CountSame(a[..|a| - 1], b[..|b| - 1]);
    }
  }

  lemma {:induction false} CountPrefix(slots: Slots, k: nat)
    requires k <= |slots| && forall i :: k <= i < |slots| ==> slots[i].None?
    ensures Count(slots) == Count(slots[..k])
    decreases |slots|
  {
    if k < |slots| {
      var init := slots[..|slots| - 1];
      CountPrefix(init, k);
      assert init[..k] == slots[..k];
    } else {
      assert slots[..k] == slots;
    }
  }

  lemma {:induction false} CountFull(slots: Slots)
    ensures Count(slots) == |slots| <==> forall i :: 0 <= i < |slots| ==> slots[i].Some?
  {
    if slots != [] {
      var init := slots[..|slots| - 1];
      CountFull(init);
      assert forall i :: 0 <= i < |init| ==> init[i] == slots[i];
    }
  }

  /** If `k` places are filled and one of the first `k` is not, some later place is filled. */
  lemma Pigeonhole(slots: Slots, k: nat, hole: nat) returns (i: nat)
    requires k <= |slots| && Count(slots) >= k && hole < k && slots[hole].None?
    ensures k <= i < |slots| && slots[i].Some?
  {
    CountFull(slots[..k]);
    assert slots[..k][hole] == slots[hole];
    if forall j :: k <= j < |slots| ==> slots[j].None? {
      CountPrefix(slots, k);
      assert false;
    }
    i :| k <= i < |slots| && slots[i].Some?;
  }

  lemma {:induction false} MaxLenBounds(shards: Shards)
    ensures forall i :: 0 <= i < |shards| ==> |shards[i]| <= MaxLen(shards)
    ensures shards != [] ==> exists i :: 0 <= i < |shards| && |shards[i]| == MaxLen(shards)
  {
    if shards != [] {
      var init := shards[..|shards| - 1];
      MaxLenBounds(init);
      assert forall i :: 0 <= i < |init| ==> init[i] == shards[i];
      assert init != [] ==> exists i :: 0 <= i < |init| && |shards[i]| == MaxLen(init);
      assert |shards[|shards| - 1]| == MaxLen(shards) || MaxLen(init) == MaxLen(shards);
    }
  }

  lemma {:induction false} MaxSlotLenBounds(slots: Slots)
    ensures forall i :: 0 <= i < |slots| && slots[i].Some? ==> |slots[i].value| <= MaxSlotLen(slots)
    ensures MaxSlotLen(slots) > 0 ==>
      exists i :: 0 <= i < |slots| && slots[i].Some? && |slots[i].value| == MaxSlotLen(slots)
  {
    if slots != [] {
      var init := slots[..|slots| - 1];
      MaxSlotLenBounds(init);
      assert forall i :: 0 <= i < |init| ==> init[i] == slots[i];
      if MaxSlotLen(slots) > 0 && MaxSlotLen(init) == MaxSlotLen(slots) {
        var i :| 0 <= i < |init| && init[i].Some? && |init[i].value| == MaxSlotLen(init);
        assert slots[i].Some? && |slots[i].value| == MaxSlotLen(slots);
      } else if MaxSlotLen(slots) > 0 {
        assert slots[|slots| - 1].Some? && |slots[|slots| - 1].value| == MaxSlotLen(slots);
      }
    }
  }

  /** The longest filled place has the length `len` as soon as one place has it and none exceeds it. */
  lemma MaxSlotLenIs(slots: Slots, len: nat, i: nat)
    requires i < |slots| && slots[i].Some? && |slots[i].value| == len
    requires forall j :: 0 <= j < |slots| && slots[j].Some? ==> |slots[j].value| <= len
    ensures MaxSlotLen(slots) == len
  {
    MaxSlotLenBounds(slots);
  }
}
