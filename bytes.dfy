/** Vocabulary shared by every layer of the decoder.

    Python represents the elements of `bytes` and `bytearray` as integers in
    0..255 and operates on them with unbounded-integer arithmetic and
    bitwise operators. The model keeps that view: a `byte` is a bounded
    integer, and the few bitwise operators the source applies are given
    here by their recursive definition on naturals, one bit at a time. */
module Bytes {

  /** The value of one element of a Python `bytes` object. */
  type byte = x: int | 0 <= x < 256

  /** One entry of a list of bits, as the layer-2 bit buffer holds them. */
  type bit = x: int | 0 <= x < 2

  /** Modulus of the 32-bit registers (`& 0xFFFFFFFF`). */
  const U32_MOD: int := 0x1_0000_0000

  /** An unsigned 32-bit value. */
  type u32 = x: int | 0 <= x < 0x1_0000_0000

  datatype Option<T> = None | Some(value: T)

  datatype Result<T, E> = Ok(value: T) | Err(error: E)

  function Pow2(k: nat): (r: nat)
    ensures r >= 1
  {
    if k == 0 then 1 else 2 * Pow2(k - 1)
  }

  /** Python's `x ^ y` on non-negative integers, by its bitwise definition. */
  function BitXor(x: nat, y: nat): nat
    decreases x + y
  {
    if x == 0 && y == 0 then 0
    else 2 * BitXor(x / 2, y / 2) + (if x % 2 == y % 2 then 0 else 1)
  }

  lemma {:induction false} BitXorBound(x: nat, y: nat, k: nat)
    requires x < Pow2(k) && y < Pow2(k)
    ensures BitXor(x, y) < Pow2(k)
  {
    if x != 0 || y != 0 {
      BitXorBound(x / 2, y / 2, k - 1);
    }
  }

  lemma {:induction false} BitXorZero(x: nat)
    ensures BitXor(0, x) == x && BitXor(x, 0) == x
  {
    if x != 0 {
      BitXorZero(x / 2);
    }
  }

  lemma {:induction false} BitXorComm(x: nat, y: nat)
    ensures BitXor(x, y) == BitXor(y, x)
    decreases x + y
  {
    if x != 0 || y != 0 {
      BitXorComm(x / 2, y / 2);
    }
  }

  /** XOR with the same key twice is the identity. */
  lemma {:induction false} BitXorCancel(c: nat, k: nat)
    ensures BitXor(c, BitXor(c, k)) == k
    decreases c + k
  {
    if c == 0 {
      BitXorZero(k);
    } else {
      var h, b := BitXor(c / 2, k / 2), if c % 2 == k % 2 then 0 else 1;
      var r := BitXor(c, k);
      assert r == 2 * h + b;
      assert r / 2 == h && r % 2 == b;
      BitXorCancel(c / 2, k / 2);
      assert BitXor(c, r) == 2 * (k / 2) + (if c % 2 == b then 0 else 1);
    }
  }

  /** Python's `x ^ y` on two byte values. */
  function Xor(x: byte, y: byte): byte
  {
    assert Pow2(8) == 256;
    BitXorBound(x, y, 8);
    BitXor(x, y)
  }

  lemma XorCancel(c: byte, k: byte)
    ensures Xor(c, Xor(c, k)) == k
  {
    BitXorCancel(c, k);
  }

  lemma XorComm(x: byte, y: byte)
    ensures Xor(x, y) == Xor(y, x)
  {
    BitXorComm(x, y);
  }

  lemma XorUndo(c: byte, k: byte)
    ensures Xor(Xor(c, k), k) == c
  {
    XorComm(c, k);
    XorComm(Xor(k, c), k);
    XorCancel(k, c);
  }

  /** Python's `x | y` on non-negative integers, by its bitwise definition. */
  function BitOr(x: nat, y: nat): nat
    decreases x + y
  {
    if x == 0 then y
    else if y == 0 then x
    else 2 * BitOr(x / 2, y / 2) + (if x % 2 == 1 || y % 2 == 1 then 1 else 0)
  }

  /** Or-ing a single bit into a position that is still clear is addition. */
  lemma {:induction false} BitOrFreshBit(m: nat, k: nat, b: bit)
    ensures BitOr(m * Pow2(k + 1), b * Pow2(k)) == m * Pow2(k + 1) + b * Pow2(k)
  {
    var x, y := m * Pow2(k + 1), b * Pow2(k);
    if x != 0 && y != 0 {
      if k == 0 {
        assert x == 2 * m && y == b;
      } else {
        assert x == 2 * (m * Pow2(k));
        assert y == 2 * (b * Pow2(k - 1));
        BitOrFreshBit(m, k - 1, b);
      }
    }
  }

  /** Or-ing a single bit above every set bit of `a` is addition. */
  lemma {:induction false} BitOrHighBit(a: nat, b: bit, k: nat)
    requires a < Pow2(k)
    ensures BitOr(a, b * Pow2(k)) == a + b * Pow2(k)
  {
    if a != 0 && b != 0 {
      assert Pow2(k) == 2 * Pow2(k - 1);
      BitOrHighBit(a / 2, b, k - 1);
    }
  }

  /** Or-ing a single bit into a clear lowest position is addition. */
  lemma BitOrLowBit(x: nat, b: bit)
    requires x % 2 == 0
    ensures BitOr(x, b) == x + b
  {
    if x != 0 && b != 0 {
      assert BitOr(x / 2, 0) == x / 2;
    }
  }

  /** Number of one bits of a natural (`bin(x).count("1")`). */
  function Popcount(x: nat): nat
  {
    if x == 0 then 0 else x % 2 + Popcount(x / 2)
  }
}
