/** Values shared by every module: optional values, results, bytes and machine words. */
module Base {
  datatype Option<+T> = None | Some(value: T)

  datatype Result<+T, +E> = Ok(value: T) | Err(error: E)

  type byte = x: int | 0 <= x < 0x100
  type Bytes = seq<byte>
  type u32 = x: int | 0 <= x < 0x1_0000_0000

  function Min(a: int, b: int): int {
    if a <= b then a else b
  }

  function Max(a: int, b: int): int {
    if a <= b then b else a
  }

  /** `Vec::resize(len, 0)`: cut to `len` bytes or fill up with zeros. */
  function Resize(s: Bytes, len: nat): (r: Bytes)
    ensures |r| == len
    ensures |s| <= len ==> r[..|s|] == s
  {
    if len <= |s| then s[..len] else s + seq(len - |s|, _ => 0)
  }

  lemma Associative<T>(a: seq<T>, b: seq<T>, c: seq<T>)
    ensures (a + b) + c == a + (b + c)
  {}

  /** All parts, one after another. */
  function Concat<T>(parts: seq<seq<T>>): seq<T> {
    if parts == [] then [] else parts[0] + Concat(parts[1..])
  }

  lemma {:induction false} ConcatAppend<T>(a: seq<seq<T>>, b: seq<seq<T>>)
    ensures Concat(a + b) == Concat(a) + Concat(b)
  {
    if a == [] {
      assert a + b == b;
    } else {
      ConcatAppend(a[1..], b);
      assert (a + b)[1..] == a[1..] + b;
      Associative(a[0], Concat(a[1..]), Concat(b));
    }
  }

  lemma ConcatSnoc<T>(parts: seq<seq<T>>, part: seq<T>)
    ensures Concat(parts + [part]) == Concat(parts) + part
  {
    ConcatAppend(parts, [part]);
    assert [part][1..] == [] && Concat([part]) == part + [];
  }

  lemma {:induction false} ConcatMember<T>(parts: seq<seq<T>>, x: T) returns (j: nat)
    requires x in Concat(parts)
    ensures j < |parts| && x in parts[j]
  {
    j := 0;
    if x !in parts[0] {
      var i := ConcatMember(parts[1..], x);
      j := i + 1;
    }
  }
}
