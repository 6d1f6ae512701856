/** The packet layout of `src/fec.rs`: a 4-byte number, a 2-byte flag and a body, little-endian throughout. */
module FecFormat {
  import opened Base

  const NUMBER_SIZE := 4
  const U16_SIZE := 2
  const FEC_HEADER_SIZE := 6
  const FEC_HEADER_SIZE_PLUS_SIZE := FEC_HEADER_SIZE + 2
  const TYPE_DATA := 0xf1
  const TYPE_PARITY := 0xf2

  /** Byte `i` of `n`, counting from the least significant. */
  function ByteOf(n: nat, i: nat): byte {
    if i == 0 then n % 0x100 else ByteOf(n / 0x100, i - 1)
  }

  function ToLe(n: nat, count: nat): (b: Bytes)
    ensures |b| == count
  {
    seq(count, i requires 0 <= i < count => ByteOf(n, i))
  }

  function FromLe(b: Bytes): nat {
    if b == [] then 0 else b[0] + 0x100 * FromLe(b[1..])
  }

  function Range(count: nat): nat {
    if count == 0 then 1 else 0x100 * Range(count - 1)
  }

  lemma {:induction false} LeRoundTrip(n: nat, count: nat)
    requires n < Range(count)
    ensures FromLe(ToLe(n, count)) == n
    decreases n, count
  {
    if count > 0 {
      LeRoundTrip(n / 0x100, count - 1);
      assert ToLe(n, count)[1..] == ToLe(n / 0x100, count - 1);
    }
  }

  lemma {:induction false} FromLeBound(b: Bytes)
    ensures FromLe(b) < Range(|b|)
  {
    if b != [] {
      FromLeBound(b[1..]);
    }
  }

  lemma Ranges()
    ensures Range(U16_SIZE) == 0x1_0000 && Range(NUMBER_SIZE) == 0x1_0000_0000
  {
    assert Range(1) == 0x100 && Range(2) == 0x1_0000 && Range(3) == 0x100_0000 && Range(4) == 0x1_0000_0000;
  }

  function Header(number: u32, flag: nat): (h: Bytes)
    ensures |h| == FEC_HEADER_SIZE
  {
    ToLe(number, NUMBER_SIZE) + ToLe(flag, U16_SIZE)
  }

  function FecFlag(packet: Bytes): Option<nat> {
    if |packet| >= FEC_HEADER_SIZE then Some(FromLe(packet[NUMBER_SIZE..FEC_HEADER_SIZE])) else None
  }

  function SeqId(packet: Bytes): u32
    requires |packet| >= FEC_HEADER_SIZE
  {
    Ranges();
    FromLeBound(packet[..NUMBER_SIZE]);
    FromLe(packet[..NUMBER_SIZE])
  }

  predicate IsDataPacket(packet: Bytes) {
    FecFlag(packet) == Some(TYPE_DATA)
  }

  predicate IsParityPacket(packet: Bytes) {
    FecFlag(packet) == Some(TYPE_PARITY)
  }

  predicate IsFecPacket(packet: Bytes) {
    IsDataPacket(packet) || IsParityPacket(packet)
  }

  function DataPayload(packet: Bytes): Option<Bytes> {
    if IsDataPacket(packet) && |packet| >= FEC_HEADER_SIZE_PLUS_SIZE
    then Some(packet[FEC_HEADER_SIZE_PLUS_SIZE..])
    else None
  }

  /** A payload as it enters the code: its length, counting the prefix itself, and its bytes. */
  function Prefixed(payload: Bytes): (shard: Bytes)
    ensures |shard| == |payload| + 2
  {
    ToLe(|payload| + 2, U16_SIZE) + payload
  }

  /** The payload a data shard announces; `None` when the announced length does not fit. */
  function Strip(shard: Bytes): Option<Bytes> {
    if |shard| < 2 then None else
    var size := FromLe(shard[..U16_SIZE]);
    if 2 <= size <= |shard| then Some(shard[2..size]) else None
  }

  /** Every field written by `Header` is read back, whatever body follows. */
  lemma HeaderRoundTrip(number: u32, flag: nat, body: Bytes)
    requires flag < 0x1_0000
    ensures var packet := Header(number, flag) + body;
      && SeqId(packet) == number
      && FecFlag(packet) == Some(flag)
      && packet[FEC_HEADER_SIZE..] == body
  {
    var packet := Header(number, flag) + body;
    Ranges();
    LeRoundTrip(number, NUMBER_SIZE);
    LeRoundTrip(flag, U16_SIZE);
    assert packet[..NUMBER_SIZE] == ToLe(number, NUMBER_SIZE);
    assert packet[NUMBER_SIZE..FEC_HEADER_SIZE] == ToLe(flag, U16_SIZE);
  }

  /** The length prefix cuts a shard back to its payload, however many zeros were appended. */
  lemma StripPadded(payload: Bytes, len: nat)
    requires |payload| + 2 < 0x1_0000 && |payload| + 2 <= len
    ensures Strip(Resize(Prefixed(payload), len)) == Some(payload)
  {
    var shard := Prefixed(payload);
    var padded := Resize(shard, len);
    Ranges();
    LeRoundTrip(|payload| + 2, U16_SIZE);
    assert padded[..|shard|] == shard;
    assert padded[..U16_SIZE] == shard[..U16_SIZE] == ToLe(|payload| + 2, U16_SIZE);
    assert padded[2..|shard|] == padded[..|shard|][2..] == payload;
  }

  lemma DataPayloadOf(number: u32, payload: Bytes)
    ensures DataPayload(Header(number, TYPE_DATA) + Prefixed(payload)) == Some(payload)
  {
    var packet := Header(number, TYPE_DATA) + Prefixed(payload);
    HeaderRoundTrip(number, TYPE_DATA, Prefixed(payload));
    assert packet[8..] == packet[6..][2..] == payload;
  }
}
