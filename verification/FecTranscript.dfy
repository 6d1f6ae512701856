/**
 * What a FEC sender puts on the wire, in closed form: which packets belong to the `m`-th accepted payload,
 * said without any encoder state.
 */
module FecTranscript {
  import opened Base
  import opened Arithmetic
  import opened FecFormat
  import opened ErasureCode

  /** An accepted `encode` call: its payload and the clock reading (in nanoseconds) it made. */
  datatype Call = Call(payload: Bytes, now: nat)

  /** 500 milliseconds. */
  const MAX_FEC_ENCODE_LATENCY := 500_000_000

  predicate Accepts(payload: Bytes) {
    |payload| + 2 <= 0xffff
  }

  ghost predicate ValidLog(log: seq<Call>) {
    forall i :: 0 <= i < |log| ==> Accepts(log[i].payload)
  }

  /** `Instant::duration_since`, which never goes below zero. */
  function Elapsed(now: nat, earlier: nat): nat {
    if now < earlier then 0 else now - earlier
  }

  function GroupOf(shape: Shape, m: nat): nat
    requires shape.k > 0
  {
    Quot(m, shape.k)
  }

  function SlotOf(shape: Shape, m: nat): (i: nat)
    requires shape.k > 0
    ensures i < shape.k
  {
    Rem(m, shape.k)
  }

  /** The first number of group `g`. The groups go round: the group id on the wire is `g` modulo `Groups()`. */
  function Start(shape: Shape, g: nat): (start: nat)
    requires shape.Valid()
    ensures start + shape.n() <= shape.Paws()
  {
    var id := Rem(g, shape.Groups());
    TimesMonotone(id + 1, shape.Groups(), shape.n());
    Times(id, shape.n())
  }

  /** The number of the `m`-th payload. */
  function DataNumber(shape: Shape, m: nat): (number: u32)
    requires shape.Valid()
    ensures number < shape.Paws()
  {
    Start(shape, GroupOf(shape, m)) + SlotOf(shape, m)
  }

  function Prefixes(calls: seq<Call>): (shards: Shards)
    requires ValidLog(calls)
    ensures |shards| == |calls|
  {
    seq(|calls|, i requires 0 <= i < |calls| => Prefixed(calls[i].payload))
  }

  /** All `k` payloads of group `g` have been accepted. */
  predicate Complete(shape: Shape, log: seq<Call>, g: nat) {
    Times(g, shape.k) + shape.k <= |log|
  }

  ghost function GroupData(shape: Shape, log: seq<Call>, g: nat): (data: Shards)
    requires ValidLog(log) && Complete(shape, log, g)
    ensures |data| == shape.k
    ensures forall i :: 0 <= i < shape.k ==> data[i] == Prefixed(log[Times(g, shape.k) + i].payload)
  {
    Prefixes(log[Times(g, shape.k)..Times(g, shape.k) + shape.k])
  }

  ghost function Width(shape: Shape, log: seq<Call>, g: nat): nat
    requires ValidLog(log) && Complete(shape, log, g)
  {
    MaxLen(GroupData(shape, log, g))
  }

  ghost function PaddedGroup(shape: Shape, log: seq<Call>, g: nat): Shards
    requires ValidLog(log) && Complete(shape, log, g)
  {
    Padded(GroupData(shape, log, g), Width(shape, log, g))
  }

  /** The codeword of group `g`: its prefixed payloads, padded to their common length, and their parity. */
  ghost function Word(codec: Codec, log: seq<Call>, g: nat): (word: Shards)
    requires Lawful(codec) && ValidLog(log) && Complete(codec.shape, log, g)
    ensures |word| == codec.shape.n()
  {
    var data, len := PaddedGroup(codec.shape, log, g), Width(codec.shape, log, g);
    GroupEncodable(codec.shape, log, g);
    assert Encodes(codec, data, len);
    codec.encode(EncodeInput(codec.shape, data, len)).value
  }

  lemma GroupEncodable(shape: Shape, log: seq<Call>, g: nat)
    requires shape.k > 0 && ValidLog(log) && Complete(shape, log, g)
    ensures Encodable(shape, PaddedGroup(shape, log, g), Width(shape, log, g))
  {
    MaxLenBounds(GroupData(shape, log, g));
    assert |GroupData(shape, log, g)[0]| <= Width(shape, log, g);
  }

  lemma WordIsCodeword(codec: Codec, log: seq<Call>, g: nat)
    requires Lawful(codec) && ValidLog(log) && Complete(codec.shape, log, g)
    ensures Encodable(codec.shape, PaddedGroup(codec.shape, log, g), Width(codec.shape, log, g))
    ensures Codeword(codec, PaddedGroup(codec.shape, log, g), Width(codec.shape, log, g), Word(codec, log, g))
  {
    GroupEncodable(codec.shape, log, g);
    assert Encodes(codec, PaddedGroup(codec.shape, log, g), Width(codec.shape, log, g));
  }

  ghost function DataPacket(shape: Shape, log: seq<Call>, m: nat): Bytes
    requires shape.Valid() && ValidLog(log) && m < |log|
  {
    Header(DataNumber(shape, m), TYPE_DATA) + Prefixed(log[m].payload)
  }

  /** Parity follows the `m`-th payload when it fills its group within 500 ms of the payload before it. */
  predicate SendsParity(shape: Shape, log: seq<Call>, m: nat)
    requires shape.k > 0 && m < |log|
    ensures SendsParity(shape, log, m) ==> Complete(shape, log, GroupOf(shape, m))
  {
    QuotRem(m, shape.k);
    && SlotOf(shape, m) + 1 == shape.k
    && m > 0
    && Elapsed(log[m].now, log[m - 1].now) < MAX_FEC_ENCODE_LATENCY
  }

  /** The first `j` parity packets of a group whose codeword is `word` and whose numbers begin at `start`. */
  ghost function ParityPackets(shape: Shape, word: Shards, start: nat, j: nat): (packets: seq<Bytes>)
    requires |word| == shape.n() && start + shape.n() <= 0xffff_ffff && j <= shape.p
    ensures |packets| == j
  {
    if j == 0 then [] else
    var i := shape.k + j - 1;
    ParityPackets(shape, word, start, j - 1) + [Header(start + i, TYPE_PARITY) + word[i]]
  }

  /** The packets the `m`-th accepted payload causes. */
  ghost function Output(codec: Codec, log: seq<Call>, m: nat): seq<Bytes>
    requires Lawful(codec) && ValidLog(log) && m < |log|
  {
    var g := GroupOf(codec.shape, m);
    [DataPacket(codec.shape, log, m)] +
    if !SendsParity(codec.shape, log, m) then [] else
    ParityPackets(codec.shape, Word(codec, log, g), Start(codec.shape, g), codec.shape.p)
  }

  /** The `m`-th call fills a group of `k`, is not the first, and came less than half a second after the one before. */
  predicate InHalfSecond(k: nat, log: seq<Call>, m: nat)
    requires k > 0 && m < |log|
  {
    (m + 1) % k == 0 && m > 0 && log[m].now < log[m - 1].now + 500_000_000
  }

  lemma FillsGroup(m: nat, k: nat)
    requires k > 0
    ensures Rem(m, k) + 1 == k <==> (m + 1) % k == 0
  {
    Step(m, k);
    DivModOperators(m + 1, k);
  }

  /** What a call answers: its data packet alone, or with `p` parity packets behind it. */
  lemma OutputCount(codec: Codec, log: seq<Call>, m: nat)
    requires Lawful(codec) && ValidLog(log) && m < |log|
    ensures |Output(codec, log, m)| == 1 + if InHalfSecond(codec.shape.k, log, m) then codec.shape.p else 0
    ensures Output(codec, log, m)[0] == DataPacket(codec.shape, log, m)
  {
    FillsGroup(m, codec.shape.k);
  }

  /** The packets of the first `m` calls, call by call. */
  ghost function Outputs(codec: Codec, log: seq<Call>, m: nat): (outputs: seq<seq<Bytes>>)
    requires Lawful(codec) && ValidLog(log) && m <= |log|
    ensures |outputs| == m && forall j :: 0 <= j < m ==> outputs[j] == Output(codec, log, j)
  {
    seq(m, j requires 0 <= j < m => Output(codec, log, j))
  }

  /** Everything sent so far, in order. */
  ghost function Sent(codec: Codec, log: seq<Call>): seq<Bytes>
    requires Lawful(codec) && ValidLog(log)
  {
    Concat(Outputs(codec, log, |log|))
  }

  /** The encoder's changing fields, as a function of the accepted calls. */
  ghost predicate Reflects(shape: Shape, log: seq<Call>, next: u32, shards: Shards, latest: Option<nat>)
    requires shape.Valid() && ValidLog(log)
  {
    && next == DataNumber(shape, |log|)
    && shards == Prefixes(log[|log| - SlotOf(shape, |log|)..])
    && latest == (if log == [] then None else Some(log[|log| - 1].now))
  }

  /** Alignment, at every wrap as well: the next number's slot is the number of shards waiting in the open group. */
  lemma ReflectsAligned(shape: Shape, log: seq<Call>, next: u32, shards: Shards, latest: Option<nat>)
    requires shape.Valid() && ValidLog(log) && Reflects(shape, log, next, shards, latest)
    ensures next < shape.Paws() && Rem(next, shape.n()) == |shards| < shape.k
  {
    QuotRem(|log|, shape.k);
    Unique(next, shape.n(), Rem(GroupOf(shape, |log|), shape.Groups()), SlotOf(shape, |log|));
  }

  lemma OpenShards(shape: Shape, log: seq<Call>, call: Call)
    requires shape.k > 0 && ValidLog(log) && Accepts(call.payload)
    ensures var m, after := |log|, log + [call];
      && SlotOf(shape, m) <= m && ValidLog(after)
      && Prefixes(after[m - SlotOf(shape, m)..]) == Prefixes(log[m - SlotOf(shape, m)..]) + [Prefixed(call.payload)]
  {
    QuotRem(|log|, shape.k);
    var i := SlotOf(shape, |log|);
    assert (log + [call])[|log| - i..] == log[|log| - i..] + [call];
  }

  /** A call that does not fill its group: one more number and one more shard. */
  lemma GroupGrows(shape: Shape, log: seq<Call>, call: Call, next: u32, shards: Shards, latest: Option<nat>)
    requires shape.Valid() && ValidLog(log) && Accepts(call.payload) && Reflects(shape, log, next, shards, latest)
    requires SlotOf(shape, |log|) + 1 < shape.k
    ensures next + 1 < shape.Paws()
    ensures ValidLog(log + [call])
    ensures Reflects(shape, log + [call], next + 1, shards + [Prefixed(call.payload)], Some(call.now))
  {
    Step(|log|, shape.k);
    OpenShards(shape, log, call);
  }

  /** A call that fills its group: the shards are the whole group, and the next group starts afterwards. */
  lemma GroupFills(shape: Shape, log: seq<Call>, call: Call, next: u32, shards: Shards, latest: Option<nat>)
    requires shape.Valid() && ValidLog(log) && Accepts(call.payload) && Reflects(shape, log, next, shards, latest)
    requires SlotOf(shape, |log|) + 1 == shape.k
    ensures ValidLog(log + [call])
    ensures var g, after := GroupOf(shape, |log|), log + [call];
      && next + 1 == Start(shape, g) + shape.k
      && Complete(shape, after, g) && shards + [Prefixed(call.payload)] == GroupData(shape, after, g)
      && Reflects(shape, after, Start(shape, g + 1), [], Some(call.now))
  {
    Step(|log|, shape.k);
    QuotRem(|log|, shape.k);
    OpenShards(shape, log, call);
    var after := log + [call];
    assert after[|after|..] == [];
    assert after[|log| - SlotOf(shape, |log|)..|after|] == after[|log| - SlotOf(shape, |log|)..];
  }

  /** The number after the last of a group is the first of the next one, or 0 at the end of the range. */
  lemma NextStart(shape: Shape, g: nat)
    requires shape.Valid()
    ensures var end := Start(shape, g) + shape.n();
      Start(shape, g + 1) == if end == shape.Paws() then 0 else end
  {
    Step(g, shape.Groups());
    var id := Rem(g, shape.Groups());
    if id + 1 < shape.Groups() {
      TimesMonotone(id + 2, shape.Groups(), shape.n());
    }
  }

  /** Numbering is consecutive modulo `Paws()`, so it agrees with a plain counter that is reduced at the end. */
  lemma NumberIsModular(shape: Shape, g: nat, i: nat)
    requires shape.Valid() && i < shape.n()
    ensures Start(shape, g) + i == Rem(Times(g, shape.n()) + i, shape.Paws())
  {
    var q, id := Quot(g, shape.Groups()), Rem(g, shape.Groups());
    QuotRem(g, shape.Groups());
    TimesAdd(Times(q, shape.Groups()), id, shape.n());
    TimesTimes(q, shape.Groups(), shape.n());
    assert Times(g, shape.n()) == Times(q, shape.Paws()) + Start(shape, g);
    Unique(Times(g, shape.n()) + i, shape.Paws(), q, Start(shape, g) + i);
  }

  /** Whatever was sent was sent by some call. */
  lemma SentBy(codec: Codec, log: seq<Call>, packet: Bytes) returns (m: nat)
    requires Lawful(codec) && ValidLog(log) && packet in Sent(codec, log)
    ensures m < |log| && packet in Output(codec, log, m)
  {
    m := ConcatMember(Outputs(codec, log, |log|), packet);
  }

  // ---------- Later calls do not change what was sent before ----------

  lemma GroupDataStable(shape: Shape, log: seq<Call>, call: Call, g: nat)
    requires ValidLog(log) && Accepts(call.payload) && Complete(shape, log, g)
    ensures ValidLog(log + [call]) && GroupData(shape, log + [call], g) == GroupData(shape, log, g)
  {
    var lo := Times(g, shape.k);
    assert (log + [call])[lo..lo + shape.k] == log[lo..lo + shape.k];
  }

  lemma OutputStable(codec: Codec, log: seq<Call>, call: Call, m: nat)
    requires Lawful(codec) && ValidLog(log) && Accepts(call.payload) && m < |log|
    ensures ValidLog(log + [call]) && Output(codec, log + [call], m) == Output(codec, log, m)
  {
    var after := log + [call];
    assert after[m] == log[m] && (m > 0 ==> after[m - 1] == log[m - 1]);
    if SendsParity(codec.shape, log, m) {
      GroupDataStable(codec.shape, log, call, GroupOf(codec.shape, m));
    }
  }

  /** One more call sends its own packets after all earlier ones. */
  lemma SentGrows(codec: Codec, log: seq<Call>, call: Call)
    requires Lawful(codec) && ValidLog(log) && Accepts(call.payload)
    ensures ValidLog(log + [call])
    ensures Sent(codec, log + [call]) == Sent(codec, log) + Output(codec, log + [call], |log|)
  {
    var m, after := |log|, log + [call];
    var before, outputs := Outputs(codec, log, m), Outputs(codec, after, m + 1);
    forall j | 0 <= j < m
      ensures outputs[j] == before[j]
    {
      OutputStable(codec, log, call, j);
    }
    assert outputs == before + [outputs[m]];
    ConcatSnoc(before, outputs[m]);
  }
}
