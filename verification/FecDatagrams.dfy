/** The MTU rule of `src/config.rs` and the size of every FEC datagram. */
module FecDatagrams {
  import opened Base
  import opened FecFormat
  import opened ErasureCode
  import opened FecTranscript
  import opened FecChannel

  const MIN_KCP_MTU := 50

  datatype ConfigError = InvalidFecShards | MtuTooSmallForFec | InvalidMtu

  predicate FecEnabled(dataShards: nat, parityShards: nat) {
    dataShards > 0 && parityShards > 0
  }

  /** `KcpConfig::validate`, giving the MTU that is left for KCP packets. */
  function Validate(mtu: nat, dataShards: nat, parityShards: nat): Result<nat, ConfigError> {
    if !(dataShards == 0 && parityShards == 0) &&
       (dataShards == 0 || parityShards == 0 || dataShards + parityShards > 256)
    then Err(InvalidFecShards)
    else if FecEnabled(dataShards, parityShards) && mtu < FEC_HEADER_SIZE_PLUS_SIZE then Err(MtuTooSmallForFec)
    else
      var kcpMtu := if FecEnabled(dataShards, parityShards) then mtu - FEC_HEADER_SIZE_PLUS_SIZE else mtu;
      if kcpMtu < MIN_KCP_MTU then Err(InvalidMtu) else Ok(kcpMtu)
  }

  /** All payloads come from a KCP that keeps to `kcpMtu`. */
  ghost predicate PayloadsWithin(log: seq<Call>, kcpMtu: nat) {
    forall i :: 0 <= i < |log| ==> |log[i].payload| <= kcpMtu
  }

  /** Parity shards are as long as the longest prefixed payload of their group, and no longer. */
  lemma ParityLength(codec: Codec, log: seq<Call>, g: nat, i: nat)
    requires Lawful(codec) && ValidLog(log) && Complete(codec.shape, log, g)
    requires codec.shape.k <= i < codec.shape.n()
    ensures |Word(codec, log, g)[i]| == Width(codec.shape, log, g)
    ensures forall j :: 0 <= j < codec.shape.k ==> |PayloadOf(codec.shape, log, g, j)| + 2 <= |Word(codec, log, g)[i]|
    ensures exists j :: 0 <= j < codec.shape.k && |PayloadOf(codec.shape, log, g, j)| + 2 == |Word(codec, log, g)[i]|
  {
    WordIsCodeword(codec, log, g);
    var data := GroupData(codec.shape, log, g);
    MaxLenBounds(data);
    assert forall j :: 0 <= j < |data| ==> |data[j]| == |PayloadOf(codec.shape, log, g, j)| + 2;
    var j :| 0 <= j < |data| && |data[j]| == MaxLen(data);
    assert |PayloadOf(codec.shape, log, g, j)| + 2 == |Word(codec, log, g)[i]|;
  }

  lemma ParityWithin(codec: Codec, log: seq<Call>, kcpMtu: nat, g: nat, packet: Bytes)
    requires Lawful(codec) && ValidLog(log) && PayloadsWithin(log, kcpMtu) && Complete(codec.shape, log, g)
    requires packet in ParityPackets(codec.shape, Word(codec, log, g), Start(codec.shape, g), codec.shape.p)
    ensures |packet| <= kcpMtu + FEC_HEADER_SIZE_PLUS_SIZE
  {
    var word := Word(codec, log, g);
    var i := ParityMember(codec.shape, word, Start(codec.shape, g), codec.shape.p, packet);
    ParityLength(codec, log, g, i);
  }

  lemma SentWithin(codec: Codec, log: seq<Call>, kcpMtu: nat, packet: Bytes)
    requires Lawful(codec) && ValidLog(log) && PayloadsWithin(log, kcpMtu) && packet in Sent(codec, log)
    ensures |packet| <= kcpMtu + FEC_HEADER_SIZE_PLUS_SIZE
  {
    var m := SentBy(codec, log, packet);
    if packet != DataPacket(codec.shape, log, m) {
      ParityWithin(codec, log, kcpMtu, GroupOf(codec.shape, m), packet);
    }
  }

  /** With an accepted configuration, every data and parity packet of every run fits the configured MTU. */
  lemma DatagramsFit(codec: Codec, log: seq<Call>, mtu: nat, packet: Bytes)
    requires Lawful(codec) && ValidLog(log)
    requires Validate(mtu, codec.shape.k, codec.shape.p).Ok?
    requires PayloadsWithin(log, Validate(mtu, codec.shape.k, codec.shape.p).value)
    requires packet in Sent(codec, log)
    ensures |packet| <= mtu
  {
    SentWithin(codec, log, Validate(mtu, codec.shape.k, codec.shape.p).value, packet);
  }

  /** Exactly which configurations are accepted, and the MTU each leaves for KCP packets. */
  lemma ValidateExactly(mtu: nat, dataShards: nat, parityShards: nat)
    ensures var r := Validate(mtu, dataShards, parityShards);
      if dataShards == 0 && parityShards == 0 then r == if mtu < 50 then Err(InvalidMtu) else Ok(mtu)
      else if dataShards == 0 || parityShards == 0 || dataShards + parityShards > 256 then r == Err(InvalidFecShards)
      else r == if mtu < 8 then Err(MtuTooSmallForFec) else if mtu < 58 then Err(InvalidMtu) else Ok(mtu - 8)
  {}
}
