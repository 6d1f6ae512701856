/** The FEC packets byte by byte and number by number, said with the built-in operators and literal numbers only. */
module FecWire {
  import opened Base
  import opened Arithmetic
  import opened FecFormat
  import opened ErasureCode
  import opened FecTranscript
  import opened FecReception
  import opened FecChannel
  import opened FecGroups

  /** Two bytes from `at` on, the less significant first. */
  function Le16(b: Bytes, at: nat): nat
    requires at + 2 <= |b|
  {
    (b[at] as int) + 0x100 * (b[at + 1] as int)
  }

  /** Four bytes from `at` on, the least significant first. */
  function Le32(b: Bytes, at: nat): nat
    requires at + 4 <= |b|
  {
    Le16(b, at) + 0x1_0000 * Le16(b, at + 2)
  }

  lemma Number2(b: Bytes)
    requires |b| == 2
    ensures FromLe(b) == Le16(b, 0)
  {
    assert b[1..][1..] == [];
    assert FromLe(b[1..]) == b[1] as int;
  }

  lemma Number4(b: Bytes)
    requires |b| == 4
    ensures FromLe(b) == Le32(b, 0)
  {
    var c := b[1..];
    var d := c[1..];
    Number2(d);
    assert FromLe(b) == (b[0] as int) + 0x100 * FromLe(c) && FromLe(c) == (c[0] as int) + 0x100 * FromLe(d);
  }

  lemma Bytes4(n: nat)
    requires n < 0x1_0000_0000
    ensures Le32(ToLe(n, 4), 0) == n
  {
    Ranges();
    LeRoundTrip(n, 4);
    Number4(ToLe(n, 4));
  }

  lemma Bytes2(n: nat)
    requires n < 0x1_0000
    ensures Le16(ToLe(n, 2), 0) == n
  {
    Ranges();
    LeRoundTrip(n, 2);
    Number2(ToLe(n, 2));
  }

  /** Bytes 4 and 5, read little-endian, are 0xf1 or 0xf2. */
  predicate MarkedFec(packet: Bytes) {
    |packet| >= 6 && packet[4] in {0xf1, 0xf2} && packet[5] == 0
  }

  /** A packet counts as FEC exactly if its flag, bytes 4 and 5 read little-endian, is 0xf1 or 0xf2. */
  lemma FlagBytes(packet: Bytes)
    ensures IsDataPacket(packet) <==> |packet| >= 6 && packet[4] == 0xf1 && packet[5] == 0
    ensures IsParityPacket(packet) <==> |packet| >= 6 && packet[4] == 0xf2 && packet[5] == 0
    ensures IsFecPacket(packet) <==> MarkedFec(packet)
  {
    if |packet| >= 6 {
      Number2(packet[4..6]);
    }
  }

  /** The payload in the open of a data packet starts behind the 8 bytes of header and length. */
  lemma OpenPayload(packet: Bytes)
    ensures DataPayload(packet) ==
      if |packet| >= 8 && packet[4] == 0xf1 && packet[5] == 0 then Some(packet[8..]) else None
  {
    FlagBytes(packet);
  }

  /** A shard's payload is what its first two bytes, little-endian and counting themselves, announce, if it fits. */
  lemma StripBytes(shard: Bytes)
    ensures Strip(shard) ==
      if |shard| >= 2 && 2 <= Le16(shard, 0) <= |shard| then Some(shard[2..Le16(shard, 0)]) else None
  {
    if |shard| >= 2 {
      Number2(shard[..2]);
    }
  }

  /** The range of numbers for groups of `n` packets: whole groups of 32-bit numbers. */
  function PlainPaws(n: nat): nat
    requires n > 0
  {
    0xffff_ffff / n * n
  }

  lemma PawsIs(shape: Shape)
    requires shape.Valid()
    ensures shape.Paws() == PlainPaws(shape.k + shape.p) > 0
  {
    DivModOperators(0xffff_ffff, shape.n());
    TimesOperator(shape.Groups(), shape.n());
  }

  /** The number a receiver reads; numbers from `paws` on are of no group. */
  lemma ParseBytes(shape: Shape, packet: Bytes)
    requires shape.Valid()
    ensures Parse(shape, packet).Some? <==> |packet| >= 6 && Le32(packet, 0) < PlainPaws(shape.k + shape.p)
  {
    PawsIs(shape);
    if |packet| >= 6 {
      Number4(packet[..4]);
      assert Le32(packet[..4], 0) == Le32(packet, 0);
    }
  }

  /** Its group and its slot, for groups of `n` packets. */
  lemma ParsePlace(shape: Shape, packet: Bytes, n: nat)
    requires shape.Valid() && Parse(shape, packet).Some? && n == shape.k + shape.p
    ensures |packet| >= 6
    ensures var a := Parse(shape, packet).value;
      a.g == Le32(packet, 0) / n && a.i == Le32(packet, 0) % n && a.body == packet[6..]
  {
    Number4(packet[..4]);
    assert Le32(packet[..4], 0) == Le32(packet, 0);
    DivModOperators(SeqId(packet), n);
  }

  lemma UnparsedAnswer(codec: Codec, log: seq<Arrival>, packet: Bytes)
    requires codec.shape.Valid() && AllFit(codec.shape, log) && KeepsAllPlaces(codec)
    requires Parse(codec.shape, packet).None?
    ensures Answer(codec, log, packet) == if |packet| < 6 then Err(PacketTooShort) else Ok([])
    ensures Recorded(codec.shape, packet) == []
  {}

  /** Packets shorter than 6 bytes are an error, and numbers of no group are answered with nothing. */
  lemma AnswerByBytes(codec: Codec, log: seq<Arrival>, packet: Bytes, paws: nat)
    requires codec.shape.Valid() && AllFit(codec.shape, log) && KeepsAllPlaces(codec)
    requires paws == PlainPaws(codec.shape.k + codec.shape.p) && (|packet| < 6 || Le32(packet, 0) >= paws)
    ensures Answer(codec, log, packet) == if |packet| < 6 then Err(PacketTooShort) else Ok([])
    ensures Recorded(codec.shape, packet) == []
  {
    ParseBytes(codec.shape, packet);
    UnparsedAnswer(codec, log, packet);
  }

  lemma HeaderBytes(number: u32, flag: nat, body: Bytes, packet: Bytes)
    requires flag < 0x100 && packet == Header(number, flag) + body
    ensures |packet| >= 6 && Le32(packet, 0) == number && packet[4] == flag && packet[5] == 0 && packet[6..] == body
  {
    Bytes4(number);
    Bytes2(flag);
    var a, b := ToLe(number, 4), ToLe(flag, 2);
    assert packet[0] == a[0] && packet[1] == a[1] && packet[2] == a[2] && packet[3] == a[3];
    assert packet[4] == b[0] && packet[5] == b[1];
    assert Le32(packet, 0) == Le32(a, 0) && Le16(packet, 4) == Le16(b, 0);
  }

  lemma PrefixBytes(payload: Bytes)
    requires |payload| + 2 < 0x1_0000
    ensures Le16(Prefixed(payload), 0) == |payload| + 2 && Prefixed(payload)[2..] == payload
  {
    Bytes2(|payload| + 2);
    var shard, b := Prefixed(payload), ToLe(|payload| + 2, 2);
    assert shard[0] == b[0] && shard[1] == b[1];
  }

  lemma SealedBytes(shape: Shape, g: nat, i: nat, body: Bytes, packet: Bytes)
    requires shape.Valid() && i < shape.n() && packet == Sealed(shape, g, i, body)
    ensures |packet| >= 6 && Le32(packet, 0) == Start(shape, g) + i
    ensures packet[4] == (if i < shape.k then 0xf1 else 0xf2) && packet[5] == 0 && packet[6..] == body
  {
    HeaderBytes(Start(shape, g) + i, if i < shape.k then TYPE_DATA else TYPE_PARITY, body, packet);
  }

  /** The slot packets in numbers: consecutive from `g * n` on, modulo `paws`; flag 0xf1 for data, 0xf2 for parity. */
  lemma SlotPacketBytes(codec: Codec, log: seq<Call>, g: nat, i: nat, n: nat)
    requires Lawful(codec) && ValidLog(log) && Complete(codec.shape, log, g) && i < n == codec.shape.k + codec.shape.p
    ensures var packet := SlotPacket(codec, log, g, i);
      && |packet| >= 6
      && PlainPaws(n) > 0 && Le32(packet, 0) == (g * n + i) % PlainPaws(n)
      && packet[4] == (if i < codec.shape.k then 0xf1 else 0xf2) && packet[5] == 0
      && packet[6..] == SlotBody(codec, log, g, i)
  {
    NumberPlain(codec.shape, g, i, n);
    SealedBytes(codec.shape, g, i, SlotBody(codec, log, g, i), SlotPacket(codec, log, g, i));
  }

  lemma NumberPlain(shape: Shape, g: nat, i: nat, n: nat)
    requires shape.Valid() && i < n == shape.k + shape.p
    ensures PlainPaws(n) > 0 && Start(shape, g) + i == (g * n + i) % PlainPaws(n)
  {
    PawsIs(shape);
    NumberIsModular(shape, g, i);
    TimesOperator(g, n);
    DivModOperators(g * n + i, shape.Paws());
  }

  /** The padded data shard of a slot: length, payload, and zeros up to the longest of the group. */
  lemma PaddingIsZero(shape: Shape, log: seq<Call>, g: nat, i: nat)
    requires ValidLog(log) && Complete(shape, log, g) && i < shape.k
    ensures var shard, payload := PaddedGroup(shape, log, g)[i], PayloadOf(shape, log, g, i);
      && |shard| == Width(shape, log, g) >= |payload| + 2
      && shard[..|payload| + 2] == Prefixed(payload)
      && forall j :: |payload| + 2 <= j < |shard| ==> shard[j] == 0
  {
    var data := GroupData(shape, log, g);
    MaxLenBounds(data);
    assert data[i] == Prefixed(PayloadOf(shape, log, g, i));
    assert |data[i]| <= Width(shape, log, g);
  }

  lemma DataPacketMarked(shape: Shape, log: seq<Call>, m: nat)
    requires shape.Valid() && ValidLog(log) && m < |log|
    ensures MarkedFec(DataPacket(shape, log, m))
  {
    HeaderBytes(DataNumber(shape, m), TYPE_DATA, Prefixed(log[m].payload), DataPacket(shape, log, m));
  }

  lemma ParityMarked(shape: Shape, word: Shards, start: nat, j: nat, packet: Bytes)
    requires |word| == shape.n() && start + shape.n() <= 0xffff_ffff && j <= shape.p
    requires packet in ParityPackets(shape, word, start, j)
    ensures MarkedFec(packet)
  {
    var i := ParityMember(shape, word, start, j, packet);
    HeaderBytes(start + i, TYPE_PARITY, word[i], packet);
  }

  /** Whatever a sender sends, data or parity, is marked. */
  lemma SentIsMarked(codec: Codec, log: seq<Call>, packet: Bytes)
    requires Lawful(codec) && ValidLog(log) && packet in Sent(codec, log)
    ensures MarkedFec(packet)
  {
    var m := SentBy(codec, log, packet);
    if packet == DataPacket(codec.shape, log, m) {
      DataPacketMarked(codec.shape, log, m);
    } else {
      var g := GroupOf(codec.shape, m);
      ParityMarked(codec.shape, Word(codec, log, g), Start(codec.shape, g), codec.shape.p, packet);
    }
  }
}
