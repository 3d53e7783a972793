/** The big-endian integer codec of the pipe connection
    (`LowLevelPipeConnection._b2i` and `_i2b`). */
module Bytes {
  import opened Common

  type Byte = b: int | 0 <= b < 256

  function Pow256(n: nat): (r: nat)
    ensures r >= 1
  {
    if n == 0 then 1 else 256 * Pow256(n - 1)
  }

  function Pow2(n: nat): (r: nat)
    ensures r >= 1
  {
    if n == 0 then 1 else 2 * Pow2(n - 1)
  }

  /** `_b2i`: `int.from_bytes(b, byteorder="big")`, most significant byte first. */
  function FromBytes(b: seq<Byte>): (r: nat)
    ensures r < Pow256(|b|)
  {
    if b == [] then 0 else FromBytes(b[..|b| - 1]) * 256 + b[|b| - 1]
  }

  /** `i.to_bytes(size, byteorder="big")` for a value that fits in `size` bytes. */
  function ToBytesFixed(i: nat, size: nat): (r: seq<Byte>)
    requires i < Pow256(size)
    ensures |r| == size
    ensures FromBytes(r) == i
  {
    if size == 0 then []
    else
      var front := ToBytesFixed(i / 256, size - 1);
      assert (front + [i % 256])[..size - 1] == front;
      front + [i % 256]
  }

  /** `int.bit_length()` of a non-negative integer. */
  function BitLength(i: nat): nat
  {
    if i == 0 then 0 else 1 + BitLength(i / 2)
  }

  /** The length `_i2b` picks when called with size 0: `(i.bit_length() + 7) // 8`. */
  function MinimalSize(i: nat): nat
  {
    (BitLength(i) + 7) / 8
  }

  /** The OverflowError raised by `int.to_bytes`. */
  datatype CodecError = NegativeToUnsigned | TooBigToConvert

  /** `_i2b(i, size)`: with size 0 the minimal length is used; a negative value
      or one that does not fit in `size` bytes raises OverflowError. */
  function IntToBytes(i: int, size: nat): (r: Result<seq<Byte>, CodecError>)
    ensures r.Ok? <==> 0 <= i && (size == 0 || i < Pow256(size))
    ensures r.Ok? ==> FromBytes(r.value) == i
    ensures r.Ok? ==> |r.value| == if size == 0 then MinimalSize(i) else size
  {
    if i < 0 then Err(NegativeToUnsigned)
    else
      var n := if size == 0 then MinimalSize(i) else size;
      MinimalSizeFits(i);
      if i < Pow256(n) then Ok(ToBytesFixed(i, n)) else Err(TooBigToConvert)
  }

  lemma {:induction false} Pow2Add8(m: nat)
    ensures Pow2(m + 8) == 256 * Pow2(m)
  {
    assert Pow2(m + 8) == 2 * Pow2(m + 7);
    assert Pow2(m + 7) == 2 * Pow2(m + 6);
    assert Pow2(m + 6) == 2 * Pow2(m + 5);
    assert Pow2(m + 5) == 2 * Pow2(m + 4);
    assert Pow2(m + 4) == 2 * Pow2(m + 3);
    assert Pow2(m + 3) == 2 * Pow2(m + 2);
    assert Pow2(m + 2) == 2 * Pow2(m + 1);
    assert Pow2(m + 1) == 2 * Pow2(m);
  }

  lemma {:induction false} Pow2Is256(k: nat)
    ensures Pow2(8 * k) == Pow256(k)
  {
    if k > 0 {
      Pow2Is256(k - 1);
      Pow2Add8(8 * (k - 1));
    }
  }

  lemma {:induction false} Pow2Monotone(a: nat, b: nat)
    requires a <= b
    ensures Pow2(a) <= Pow2(b)
  {
    if a < b {
      Pow2Monotone(a, b - 1);
    }
  }

  /** The bit length is exact: 2^(bits-1) <= i < 2^bits. */
  lemma {:induction false} BitLengthBounds(i: nat)
    ensures i < Pow2(BitLength(i))
    ensures i > 0 ==> Pow2(BitLength(i) - 1) <= i
  {
    if i > 0 {
      BitLengthBounds(i / 2);
    }
  }

  /** With size 0, `_i2b` never overflows, and the length it picks is the
      smallest that holds the value. */
  lemma MinimalSizeFits(i: nat)
    ensures i < Pow256(MinimalSize(i))
    ensures MinimalSize(i) > 0 ==> Pow256(MinimalSize(i) - 1) <= i
  {
    var bits, n := BitLength(i), MinimalSize(i);
    BitLengthBounds(i);
    Pow2Monotone(bits, 8 * n);
    Pow2Is256(n);
    if n > 0 {
      Pow2Monotone(8 * (n - 1), bits - 1);
      Pow2Is256(n - 1);
    }
  }

  /** Zero is encoded by `_i2b(0)` as the empty byte string, which decodes back to 0. */
  lemma ZeroIsEmpty()
    ensures IntToBytes(0, 0) == Ok([])
  {
  }

  /** The other direction: a byte string is recovered from its value and length,
      so the fixed-size codec is a bijection. */
  lemma {:induction false} FromBytesInjective(b: seq<Byte>)
    ensures ToBytesFixed(FromBytes(b), |b|) == b
  {
    if b != [] {
      var n := |b| - 1;
      var front := b[..n];
      FromBytesInjective(front);
      var v := FromBytes(b);
      assert v / 256 == FromBytes(front) && v % 256 == b[n];
      assert b == front + [b[n]];
    }
  }
}
