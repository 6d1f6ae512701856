/**
 * What a FEC receiver knows after a list of arrivals, group by group: no map, no pruning pass, only the arrivals of
 * the group in question and the newest group seen.
 */
module FecReception {
  import opened Base
  import opened Arithmetic
  import opened FecFormat
  import opened ErasureCode

  const MAX_SHARD_SETS := 3

  /** A packet whose number is in range: its group id, its slot and its body. */
  datatype Arrival = Arrival(g: nat, i: nat, body: Bytes)

  function Parse(shape: Shape, packet: Bytes): (r: Option<Arrival>)
    requires shape.Valid()
    ensures r.Some? ==> Fits(shape, r.value)
  {
    if |packet| < FEC_HEADER_SIZE || SeqId(packet) >= shape.Paws() then None else
    QuotBelow(SeqId(packet), shape.Groups(), shape.n());
    Some(Arrival(Quot(SeqId(packet), shape.n()), Rem(SeqId(packet), shape.n()), packet[FEC_HEADER_SIZE..]))
  }

  predicate Fits(shape: Shape, a: Arrival) {
    a.i < shape.n() && a.g < 0x8000_0000
  }

  ghost predicate AllFit(shape: Shape, log: seq<Arrival>) {
    forall j :: 0 <= j < |log| ==> Fits(shape, log[j])
  }

  function Window(shape: Shape): nat {
    MAX_SHARD_SETS * shape.n()
  }

  function Newest(log: seq<Arrival>): nat {
    if log == [] then 0 else Max(Newest(log[..|log| - 1]), log[|log| - 1].g)
  }

  function NoShards(n: nat): (slots: Slots)
    ensures |slots| == n && forall i :: 0 <= i < n ==> slots[i] == None
  {
    seq(n, _ => None)
  }

  /** A new shard joins its group; with the `k`-th one the group is handed to the code and forgotten. */
  function Admit(shape: Shape, slots: Slots, a: Arrival): (r: Slots)
    requires |slots| == shape.n() && Fits(shape, a)
    ensures |r| == shape.n()
  {
    if slots[a.i].Some? then slots else
    var full := slots[a.i := Some(a.body)];
    if Count(full) < shape.k then full else NoShards(shape.n())
  }

  /** The shards held for group `g`: none once a group more than the window newer has been seen. */
  function Held(shape: Shape, log: seq<Arrival>, g: nat): (slots: Slots)
    requires AllFit(shape, log)
    ensures |slots| == shape.n()
  {
    if log == [] || Newest(log) > g + Window(shape) then NoShards(shape.n()) else
    var before := Held(shape, log[..|log| - 1], g);
    var a := log[|log| - 1];
    if a.g != g then before else Admit(shape, before, a)
  }

  /** The data slots below `k` that are still empty, in order. */
  function Missing(slots: Slots, k: nat): (missing: seq<nat>)
    requires k <= |slots|
    ensures forall j :: 0 <= j < |missing| ==> missing[j] < k
  {
    if k == 0 then [] else
    Missing(slots, k - 1) + if slots[k - 1].None? then [k - 1] else []
  }

  /** The payloads that the given slots announce; a slot that announces none is passed over. */
  function Payloads(slots: Slots, indices: seq<nat>): seq<Bytes>
    requires forall j :: 0 <= j < |indices| ==> indices[j] < |slots|
  {
    if indices == [] then [] else
    var slot := slots[indices[|indices| - 1]];
    Payloads(slots, indices[..|indices| - 1]) +
    if slot.Some? && Strip(slot.value).Some? then [Strip(slot.value).value] else []
  }

  /** What `decode` answers to arrival `a` after `log`. */
  ghost function Decoded(codec: Codec, log: seq<Arrival>, a: Arrival): Result<seq<Bytes>, FecError>
    requires AllFit(codec.shape, log) && Fits(codec.shape, a)
    requires KeepsAllPlaces(codec)
  {
    var slots := Held(codec.shape, log, a.g);
    var full := slots[a.i := Some(a.body)];
    if slots[a.i].Some? || Count(full) < codec.shape.k then Ok([]) else Rebuilt(codec, full)
  }

  ghost function Rebuilt(codec: Codec, full: Slots): Result<seq<Bytes>, FecError>
    requires |full| == codec.shape.n() && KeepsAllPlaces(codec)
  {
    var missing := Missing(full, codec.shape.k);
    var padded := PaddedSlots(full, MaxSlotLen(full));
    assert KeepsPlaces(codec, padded);
    if missing == [] then Ok([]) else
    match codec.reconstruct(padded)
    case Err(error) => Err(CodecFailed(error))
    case Ok(slots) => Ok(Payloads(slots, missing))
  }

  /** What `decode` answers to any packet after `log`. */
  ghost function Answer(codec: Codec, log: seq<Arrival>, packet: Bytes): Result<seq<Bytes>, FecError>
    requires codec.shape.Valid() && AllFit(codec.shape, log) && KeepsAllPlaces(codec)
  {
    if |packet| < FEC_HEADER_SIZE then Err(PacketTooShort) else
    match Parse(codec.shape, packet)
    case None => Ok([])
    case Some(a) => Decoded(codec, log, a)
  }

  /** What a decoder records of a packet: nothing when the number is out of range. */
  function Recorded(shape: Shape, packet: Bytes): (r: seq<Arrival>)
    requires shape.Valid()
    ensures AllFit(shape, r)
  {
    match Parse(shape, packet) case Some(a) => [a] case None => []
  }

  lemma HeldStep(shape: Shape, log: seq<Arrival>, a: Arrival, g: nat)
    requires AllFit(shape, log) && Fits(shape, a)
    ensures AllFit(shape, log + [a])
    ensures Newest(log + [a]) == Max(Newest(log), a.g)
    ensures Held(shape, log + [a], g) ==
      if Newest(log + [a]) > g + Window(shape) then NoShards(shape.n())
      else if a.g != g then Held(shape, log, g)
      else Admit(shape, Held(shape, log, g), a)
  {
    assert (log + [a])[..|log|] == log;
  }

  /** However packets arrive, a group holds fewer than `k` shards, and some only inside the window. */
  lemma {:induction false} HeldBounded(shape: Shape, log: seq<Arrival>, g: nat)
    requires shape.k > 0 && AllFit(shape, log)
    ensures Count(Held(shape, log, g)) < shape.k
    ensures Held(shape, log, g) != NoShards(shape.n()) ==> g <= Newest(log) <= g + Window(shape)
    ensures Held(shape, log, g) != NoShards(shape.n()) <==> Count(Held(shape, log, g)) > 0
  {
    CountZero(NoShards(shape.n()));
    CountZero(Held(shape, log, g));
    if log != [] {
      HeldBounded(shape, log[..|log| - 1], g);
    }
  }

  /** A group is completed only when it is not newer than all others, unless single packets complete groups. */
  lemma CompletionKeepsNewest(shape: Shape, log: seq<Arrival>, a: Arrival)
    requires shape.k > 1 && AllFit(shape, log) && Fits(shape, a)
    requires Held(shape, log, a.g)[a.i].None?
    requires Count(Held(shape, log, a.g)[a.i := Some(a.body)]) >= shape.k
    ensures a.g <= Newest(log) <= a.g + Window(shape)
  {
    CountStep(Held(shape, log, a.g), a.i, a.body);
    HeldBounded(shape, log, a.g);
  }

  /** The map of shard sets stores exactly the groups that hold something. */
  ghost predicate Mirrors(shape: Shape, log: seq<Arrival>, sets: map<u32, Slots>)
    requires AllFit(shape, log)
  {
    forall g: u32 :: StoredRight(shape, log, sets, g)
  }

  ghost predicate StoredRight(shape: Shape, log: seq<Arrival>, sets: map<u32, Slots>, g: u32)
    requires AllFit(shape, log)
  {
    var slots := Held(shape, log, g);
    if slots == NoShards(shape.n()) then g !in sets else g in sets && sets[g] == slots
  }

  /** The stored set of a group, or an empty one. */
  function Lookup(shape: Shape, sets: map<u32, Slots>, g: u32): Slots {
    if g in sets then sets[g] else NoShards(shape.n())
  }

  function Pruned(shape: Shape, sets: map<u32, Slots>, newest: nat): map<u32, Slots> {
    map g | g in sets && newest <= g + Window(shape) :: sets[g]
  }

  lemma LookupIsHeld(shape: Shape, log: seq<Arrival>, sets: map<u32, Slots>, g: u32)
    requires AllFit(shape, log) && Mirrors(shape, log, sets)
    ensures Lookup(shape, sets, g) == Held(shape, log, g)
  {
    assert StoredRight(shape, log, sets, g);
  }

  /** A duplicate changes nothing. */
  lemma DuplicateKeeps(shape: Shape, log: seq<Arrival>, sets: map<u32, Slots>, a: Arrival)
    requires shape.k > 0 && AllFit(shape, log) && Fits(shape, a) && Mirrors(shape, log, sets)
    requires Held(shape, log, a.g)[a.i].Some?
    ensures AllFit(shape, log + [a]) && Mirrors(shape, log + [a], sets) && Newest(log + [a]) == Newest(log)
    ensures sets[a.g := Held(shape, log, a.g)] == sets
  {
    HeldBounded(shape, log, a.g);
    HeldStep(shape, log, a, a.g);
    assert StoredRight(shape, log, sets, a.g);
    forall g: u32
      ensures StoredRight(shape, log + [a], sets, g)
    {
      assert StoredRight(shape, log, sets, g);
      HeldBounded(shape, log, g);
      HeldStep(shape, log, a, g);
    }
  }

  /** Storing a new shard, forgetting a completed group and pruning by the newest group keeps the map right. */
  lemma StoreKeeps(shape: Shape, log: seq<Arrival>, sets: map<u32, Slots>, a: Arrival)
    requires shape.k > 0 && AllFit(shape, log) && Fits(shape, a) && Mirrors(shape, log, sets)
    requires Held(shape, log, a.g)[a.i].None?
    ensures var full := Held(shape, log, a.g)[a.i := Some(a.body)];
      var stored := if Count(full) < shape.k then sets[a.g := full] else sets - {a.g};
      AllFit(shape, log + [a]) && Mirrors(shape, log + [a], Pruned(shape, stored, Newest(log + [a])))
  {
    var full := Held(shape, log, a.g)[a.i := Some(a.body)];
    var stored := if Count(full) < shape.k then sets[a.g := full] else sets - {a.g};
    var pruned := Pruned(shape, stored, Newest(log + [a]));
    assert full[a.i] != NoShards(shape.n())[a.i];
    HeldStep(shape, log, a, a.g);
    forall g: u32
      ensures StoredRight(shape, log + [a], pruned, g)
    {
      assert StoredRight(shape, log, sets, g);
      HeldStep(shape, log, a, g);
    }
  }

  /** Forgetting a completed group is enough where no pruning follows, as completing brings no newer group. */
  lemma CompletionKeeps(shape: Shape, log: seq<Arrival>, sets: map<u32, Slots>, a: Arrival)
    requires shape.k > 0 && AllFit(shape, log) && Fits(shape, a) && Mirrors(shape, log, sets)
    requires Held(shape, log, a.g)[a.i].None?
    requires Count(Held(shape, log, a.g)[a.i := Some(a.body)]) >= shape.k
    ensures AllFit(shape, log + [a]) && Mirrors(shape, log + [a], sets - {a.g})
  {
    HeldStep(shape, log, a, a.g);
    if shape.k > 1 {
      CompletionKeepsNewest(shape, log, a);
    }
    forall g: u32
      ensures StoredRight(shape, log + [a], sets - {a.g}, g)
    {
      assert StoredRight(shape, log, sets, g);
      HeldBounded(shape, log, g);
      HeldStep(shape, log, a, g);
    }
  }
}
