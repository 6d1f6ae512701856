/**
 * A concrete erasure code with one parity shard: each parity byte is the exclusive or of its column.
 * It shows that the law the FEC theorems assume can be met, for every number of data shards.
 */
module XorParity {
  import opened Base
  import opened ErasureCode

  function Xor(a: nat, b: nat): nat
    decreases a + b
  {
    if a == 0 && b == 0 then 0
    else 2 * Xor(a / 2, b / 2) + if a % 2 == b % 2 then 0 else 1
  }

  lemma XorBits(a: nat, b: nat)
    ensures Xor(a, b) / 2 == Xor(a / 2, b / 2)
    ensures Xor(a, b) % 2 == if a % 2 == b % 2 then 0 else 1
  {}

  lemma {:induction false} XorAssociative(a: nat, b: nat, c: nat)
    ensures Xor(Xor(a, b), c) == Xor(a, Xor(b, c))
    decreases a + b + c
  {
    if a + b + c > 0 {
      XorAssociative(a / 2, b / 2, c / 2);
      XorBits(a, b);
      XorBits(b, c);
      XorBits(Xor(a, b), c);
      XorBits(a, Xor(b, c));
    }
  }

  lemma {:induction false} XorCommutative(a: nat, b: nat)
    ensures Xor(a, b) == Xor(b, a)
    decreases a + b
  {
    if a + b > 0 {
      XorCommutative(a / 2, b / 2);
    }
  }

  lemma {:induction false} XorZero(a: nat)
    ensures Xor(a, 0) == a && Xor(0, a) == a && Xor(a, a) == 0
  {
    if a > 0 {
      XorZero(a / 2);
    }
  }

  function Pow2(w: nat): nat {
    if w == 0 then 1 else 2 * Pow2(w - 1)
  }

  lemma {:induction false} XorBound(a: nat, b: nat, w: nat)
    requires a < Pow2(w) && b < Pow2(w)
    ensures Xor(a, b) < Pow2(w)
    decreases w
  {
    if w > 0 {
      XorBound(a / 2, b / 2, w - 1);
    }
  }

  function XorByte(a: byte, b: byte): (r: byte)
    ensures r == Xor(a, b)
  {
    assert Pow2(8) == 0x100;
    XorBound(a, b, 8);
    Xor(a, b)
  }

  function Fold(column: Bytes): byte {
    if column == [] then 0 else XorByte(Fold(column[..|column| - 1]), column[|column| - 1])
  }

  lemma {:induction false} FoldConcat(a: Bytes, b: Bytes)
    ensures Fold(a + b) == Xor(Fold(a), Fold(b))
  {
    if b == [] {
      assert a + b == a;
      XorZero(Fold(a));
    } else {
      var init := b[..|b| - 1];
      FoldConcat(a, init);
      assert (a + b)[..|a + b| - 1] == a + init;
      XorAssociative(Fold(a), Fold(init), b[|b| - 1]);
    }
  }

  lemma XorCancel(a: nat, x: nat, b: nat)
    ensures Xor(Xor(a, b), Xor(Xor(a, x), b)) == x
  {
    var y := Xor(a, b);
    XorCommutative(a, x);
    XorAssociative(x, a, b);
    XorCommutative(x, y);
    XorAssociative(y, y, x);
    XorZero(y);
    XorZero(x);
  }

  lemma FoldSplit(column: Bytes, i: nat)
    requires i < |column|
    ensures Fold(column) == Xor(Xor(Fold(column[..i]), column[i]), Fold(column[i + 1..]))
  {
    var a := column[..i];
    assert column[..i + 1][..i] == a;
    assert column == column[..i + 1] + column[i + 1..];
    FoldConcat(column[..i + 1], column[i + 1..]);
  }

  /** The folded rest of a column together with its fold gives a removed byte back. */
  lemma FoldRecovers(column: Bytes, i: nat)
    requires i < |column|
    ensures Fold(column[..i] + column[i + 1..] + [Fold(column)]) == column[i]
  {
    var rest := column[..i] + column[i + 1..];
    FoldSplit(column, i);
    FoldConcat(column[..i], column[i + 1..]);
    assert (rest + [Fold(column)])[..|rest|] == rest;
    XorCancel(Fold(column[..i]), column[i], Fold(column[i + 1..]));
  }

  function Column(shards: Shards, len: nat, j: nat): (c: Bytes)
    requires AllOfLength(shards, len) && j < len
    ensures |c| == |shards|
  {
    seq(|shards|, i requires 0 <= i < |shards| => shards[i][j])
  }

  function Parity(shards: Shards, len: nat): (r: Bytes)
    requires AllOfLength(shards, len)
    ensures |r| == len
  {
    seq(len, j requires 0 <= j < len => Fold(Column(shards, len, j)))
  }

  function Values(slots: Slots): Shards {
    if slots == [] then []
    else Values(slots[..|slots| - 1]) + if slots[|slots| - 1].Some? then [slots[|slots| - 1].value] else []
  }

  function FirstHole(slots: Slots): (i: nat)
    ensures i <= |slots|
    ensures i < |slots| ==> slots[i].None?
    ensures forall j :: 0 <= j < i ==> slots[j].Some?
  {
    if slots == [] || slots[0].None? then 0 else 1 + FirstHole(slots[1..])
  }

  function Encode(k: nat, shards: Shards): Result<Shards, CodecError> {
    if |shards| != k + 1 then Err(TooFewShards)
    else if shards[0] == [] then Err(EmptyShard)
    else if !AllOfLength(shards, |shards[0]|) then Err(IncorrectShardSize)
    else
      assert AllOfLength(shards[..k], |shards[0]|);
      Ok(shards[..k] + [Parity(shards[..k], |shards[0]|)])
  }

  function Reconstruct(k: nat, slots: Slots): (r: Result<Slots, CodecError>)
    ensures r.Ok? ==> |r.value| == |slots|
  {
    var values := Values(slots);
    var hole := FirstHole(slots);
    if |slots| != k + 1 || Count(slots) < k || values == [] then Err(TooFewShards)
    else if values[0] == [] then Err(EmptyShard)
    else if !AllOfLength(values, |values[0]|) then Err(IncorrectShardSize)
    else if hole < k then Ok(slots[hole := Some(Parity(values, |values[0]|))])
    else Ok(slots)
  }

  function XorCodec(k: nat): Codec {
    Codec(Shape(k, 1), shards => Encode(k, shards), slots => Reconstruct(k, slots))
  }

  lemma {:induction false} ValuesConcat(a: Slots, b: Slots)
    ensures Values(a + b) == Values(a) + Values(b)
  {
    if b == [] {
      assert a + b == a;
    } else {
      ValuesConcat(a, b[..|b| - 1]);
      assert (a + b)[..|a + b| - 1] == a + b[..|b| - 1];
    }
  }

  lemma ValuesSkip(a: Slots, b: Slots)
    ensures Values(a + [None] + b) == Values(a) + Values(b)
  {
    assert (a + [None])[..|a|] == a;
    ValuesConcat(a + [None], b);
  }

  lemma {:induction false} ValuesAll(slots: Slots, word: Shards)
    requires Agrees(slots, word) && forall i :: 0 <= i < |slots| ==> slots[i].Some?
    ensures Values(slots) == word
  {
    if slots != [] {
      ValuesAll(slots[..|slots| - 1], word[..|word| - 1]);
    }
  }

  lemma OnlyHole(slots: Slots, hole: nat)
    requires hole < |slots| && slots[hole].None? && Count(slots) + 1 >= |slots|
    ensures forall j :: 0 <= j < |slots| && j != hole ==> slots[j].Some?
  {
    CountStep(slots, hole, []);
    var filled := slots[hole := Some([])];
    CountFull(filled);
    assert forall j :: 0 <= j < |slots| && j != hole ==> slots[j] == filled[j];
  }

  /** With one place missing, the present shards are the codeword without that place. */
  lemma ValuesAround(slots: Slots, word: Shards, hole: nat)
    requires Agrees(slots, word) && hole < |slots| && slots[hole].None? && Count(slots) + 1 >= |slots|
    ensures Values(slots) == word[..hole] + word[hole + 1..]
  {
    OnlyHole(slots, hole);
    var a, b := slots[..hole], slots[hole + 1..];
    ValuesAll(a, word[..hole]);
    ValuesAll(b, word[hole + 1..]);
    ValuesSkip(a, b);
    assert slots == a + [None] + b;
  }

  /** Folding the rest of a codeword column by column restores the missing data shard. */
  lemma ParityRestores(data: Shards, len: nat, word: Shards, hole: nat, rest: Shards)
    requires hole < |data| && AllOfLength(data, len)
    requires word == data + [Parity(data, len)] && rest == word[..hole] + word[hole + 1..]
    ensures AllOfLength(rest, len) && Parity(rest, len) == data[hole]
  {
    forall j | 0 <= j < len
      ensures Parity(rest, len)[j] == data[hole][j]
    {
      var column := Column(data, len, j);
      assert Column(rest, len, j) == column[..hole] + column[hole + 1..] + [Fold(column)];
      FoldRecovers(column, hole);
    }
  }

  lemma XorEncodes(k: nat, data: Shards, len: nat)
    requires k > 0 && Encodable(Shape(k, 1), data, len)
    ensures Encodes(XorCodec(k), data, len)
    ensures XorCodec(k).encode(EncodeInput(Shape(k, 1), data, len)) == Ok(data + [Parity(data, len)])
  {
    var input := EncodeInput(Shape(k, 1), data, len);
    assert AllOfLength(input, len);
    assert input[..k] == data;
    assert Encode(k, input) == Ok(data + [Parity(data, len)]);
  }

  lemma XorRestores(k: nat, data: Shards, len: nat, word: Shards, slots: Slots)
    requires k > 0 && Encodable(Shape(k, 1), data, len) && Codeword(XorCodec(k), data, len, word)
    requires Agrees(slots, word) && Count(slots) >= k
    ensures Restores(XorCodec(k), slots, data)
  {
    XorEncodes(k, data, len);
    var values := Values(slots);
    var hole := FirstHole(slots);
    if hole < |slots| {
      ValuesAround(slots, word, hole);
    } else {
      ValuesAll(slots, word);
    }
    assert AllOfLength(values, len) && |values| >= k;
    assert forall i :: 0 <= i < k ==> word[i] == word[..k][i];
    if hole < k {
      ParityRestores(data, len, word, hole, values);
      OnlyHole(slots, hole);
    }
  }

  /** The code is lawful for every number of data shards that leaves room for the parity shard. */
  lemma XorCodecIsLawful(k: nat)
    requires 0 < k <= 255
    ensures Lawful(XorCodec(k))
  {
    var codec := XorCodec(k);
    forall data, len: nat | Encodable(codec.shape, data, len)
      ensures Encodes(codec, data, len)
    {
      XorEncodes(k, data, len);
    }
    forall slots
      ensures KeepsPlaces(codec, slots)
    {
    }
    forall data, len: nat, word, slots |
      && Encodable(codec.shape, data, len) && Codeword(codec, data, len, word)
      && Agrees(slots, word) && Count(slots) >= k
      ensures Restores(codec, slots, data)
    {
      XorRestores(k, data, len, word, slots);
    }
  }
}
