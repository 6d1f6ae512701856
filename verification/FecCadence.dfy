/** When a sender's groups are covered by parity: the half-second rule over whole runs, in plain numbers. */
module FecCadence {
  import opened Base
  import opened Arithmetic
  import opened FecFormat
  import opened ErasureCode
  import opened FecTranscript
  import opened FecReception
  import opened FecChannel
  import opened FecGroups
  import opened FecWire

  lemma NumberOfCall(shape: Shape, m: nat, n: nat)
    requires shape.Valid() && n == shape.k + shape.p
    ensures PlainPaws(n) > 0 && DataNumber(shape, m) == (m / shape.k * n + m % shape.k) % PlainPaws(n)
  {
    DivModOperators(m, shape.k);
    SlotFits(shape, m);
    NumberPlain(shape, GroupOf(shape, m), SlotOf(shape, m), n);
  }

  /** The data packet of the `m`-th payload, byte by byte. */
  lemma DataPacketBytes(shape: Shape, log: seq<Call>, m: nat, n: nat)
    requires shape.Valid() && ValidLog(log) && m < |log| && n == shape.k + shape.p
    ensures var packet := DataPacket(shape, log, m);
      && |packet| == |log[m].payload| + 8
      && PlainPaws(n) > 0 && Le32(packet, 0) == (m / shape.k * n + m % shape.k) % PlainPaws(n)
      && packet[4] == 0xf1 && packet[5] == 0
      && Le16(packet, 6) == |log[m].payload| + 2 && packet[8..] == log[m].payload
  {
    var packet, body := DataPacket(shape, log, m), Prefixed(log[m].payload);
    NumberOfCall(shape, m, n);
    HeaderBytes(DataNumber(shape, m), TYPE_DATA, body, packet);
    PrefixBytes(log[m].payload);
    assert Le16(packet, 6) == Le16(packet[6..], 0);
    assert packet[8..] == packet[6..][2..];
  }

  lemma {:induction false} ParityAt(shape: Shape, word: Shards, g: nat, j: nat, i: nat)
    requires shape.Valid() && |word| == shape.n() && i < j <= shape.p
    ensures ParityPackets(shape, word, Start(shape, g), j)[i] == Sealed(shape, g, shape.k + i, word[shape.k + i])
    decreases j
  {
    if i < j - 1 {
      ParityAt(shape, word, g, j - 1, i);
    }
  }

  /** The parity packets of an answer carry the parity slots of the group just filled, in order. */
  lemma ParityInOrder(codec: Codec, log: seq<Call>, m: nat, j: nat)
    requires Lawful(codec) && ValidLog(log) && m < |log| && InHalfSecond(codec.shape.k, log, m) && j < codec.shape.p
    ensures Complete(codec.shape, log, GroupOf(codec.shape, m)) && |Output(codec, log, m)| == 1 + codec.shape.p
    ensures Output(codec, log, m)[1 + j] == SlotPacket(codec, log, GroupOf(codec.shape, m), codec.shape.k + j)
  {
    var g := GroupOf(codec.shape, m);
    FillsGroup(m, codec.shape.k);
    OutputCount(codec, log, m);
    assert SendsParity(codec.shape, log, m);
    ParityAt(codec.shape, Word(codec, log, g), g, codec.shape.p, j);
  }

  /** Calls follow each other within half a second. */
  ghost predicate Steady(log: seq<Call>) {
    forall m :: 0 < m < |log| ==> log[m].now < log[m - 1].now + 500_000_000
  }

  /** Every call that fills a group of `k` comes half a second or more after the one before, or is the first. */
  ghost predicate Sparse(k: nat, log: seq<Call>)
    requires k > 0
  {
    forall m :: 0 < m < |log| && (m + 1) % k == 0 ==> log[m].now >= log[m - 1].now + 500_000_000
  }

  lemma SteadyGroupSent(shape: Shape, log: seq<Call>, g: nat)
    requires shape.k >= 2 && Steady(log) && Complete(shape, log, g)
    ensures GroupSent(shape, log, g)
  {
    var m := Times(g, shape.k) + shape.k - 1;
    SlotOfCall(shape, g, shape.k - 1);
    assert log[m].now < log[m - 1].now + 500_000_000;
  }

  /** A steady sender with two data shards or more sends a packet for every slot of every complete group. */
  lemma SteadyCoversGroups(codec: Codec, log: seq<Call>, g: nat, i: nat) returns (packet: Bytes)
    requires Lawful(codec) && ValidLog(log) && InEpoch(codec.shape, log) && Steady(log) && codec.shape.k >= 2
    requires (g + 1) * codec.shape.k <= |log| && i < codec.shape.k + codec.shape.p
    ensures packet in Sent(codec, log)
    ensures Parse(codec.shape, packet).Some?
    ensures Parse(codec.shape, packet).value.g == g && Parse(codec.shape, packet).value.i == i
  {
    TimesOperator(g + 1, codec.shape.k);
    SteadyGroupSent(codec.shape, log, g);
    packet := SlotPacket(codec, log, g, i);
    GroupInEpoch(codec.shape, log, g);
    SlotPacketSent(codec, log, g, i);
    SlotPacketParsed(codec, log, g, i);
  }

  /** A sparse sender sends no parity at all. */
  lemma SparseSendsNoParity(codec: Codec, log: seq<Call>, packet: Bytes)
    requires Lawful(codec) && ValidLog(log) && InEpoch(codec.shape, log) && Sparse(codec.shape.k, log)
    requires packet in Sent(codec, log)
    ensures Parse(codec.shape, packet).Some? && Parse(codec.shape, packet).value.i < codec.shape.k
  {
    var m := SentBy(codec, log, packet);
    OutputCount(codec, log, m);
    assert Output(codec, log, m) == [DataPacket(codec.shape, log, m)];
    EpochGroup(codec.shape, log, m);
    ParseData(codec.shape, log, m);
  }
}
