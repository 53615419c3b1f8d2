/** Layer 1 of the decoder: every byte has its even bits flipped (XOR with
    0x55) and is then rotated right by one bit.

    Python's shifts and masks on a non-negative integer are written with
    their arithmetic meaning: `x >> 1` is `x / 2`, `x & 1` is `x % 2` and
    `x << 7` is `x * 128`; `|` is `BitOr`. */
module Layer1FlipRotate {
  import opened Bytes

  /** The mask whose set bits are the ones flipped. */
  const MASK: byte := 0x55

  /** Rotate right by one bit: the old low bit becomes bit 7 and the other
      seven bits move down one place. */
  function RotateRight(flipped: byte): (rotated: byte)
    ensures rotated % 128 == flipped / 2 && rotated / 128 == flipped % 2
  {
    var lsb := flipped % 2;
    var shifted := flipped / 2;
    assert Pow2(7) == 128;
    BitOrHighBit(shifted, lsb, 7);
    HighBitSplit(shifted, lsb);
    BitOr(shifted, lsb * 128)
  }

  lemma HighBitSplit(low: nat, high: bit)
    requires low < 128
    ensures (low + high * 128) % 128 == low && (low + high * 128) / 128 == high
  {
    if high == 1 {
      assert low + high * 128 == low + 128;
    }
  }

  /** What the loop body does to one byte. */
  function FlipRotate(b: byte): (r: byte)
  {
    RotateRight(Xor(b, MASK))
  }

  /** `flip_and_rotate`: the transform applied byte by byte, appending to
      the output buffer. */
  method FlipAndRotate(data: seq<byte>) returns (out: seq<byte>)
    ensures |out| == |data|
    ensures forall i :: 0 <= i < |data| ==> out[i] == FlipRotate(data[i])
  {
    out := [];
    for j := 0 to |data|
      invariant |out| == j
      invariant forall i :: 0 <= i < j ==> out[i] == FlipRotate(data[i])
    {
      var byte := data[j];
      var flipped := Xor(byte, MASK);
      var lsb := flipped % 2;
      var shifted := flipped / 2;
      assert Pow2(7) == 128;
      BitOrHighBit(shifted, lsb, 7);
      var rotated := BitOr(shifted, lsb * 128);
      out := out + [rotated];
    }
  }

  /** Rotate left by one bit, as the inverse is written: the shifted value
      is cut to eight bits (`& 0xFF`, that is `% 256`) and bit 7 comes back
      in at the bottom. */
  function RotateLeft(b: byte): (r: byte)
  {
    BitOrLowBit((b as int * 2) % 256, b / 128);
    BitOr((b as int * 2) % 256, b / 128)
  }

  /** Undo one byte: rotate left, then XOR with the mask. */
  function Unflip(r: byte): byte
  {
    Xor(RotateLeft(r), MASK)
  }

  lemma RotateRoundTrip(b: byte)
    ensures RotateLeft(RotateRight(b)) == b
    ensures RotateRight(RotateLeft(b)) == b
  {
    LeftAfterRight(b);
    RightAfterLeft(b);
  }

  /** Doubling a byte modulo 256 drops its bit 7. */
  lemma DoubleMod(x: byte)
    ensures (x as int * 2) % 256 == 2 * (x % 128)
  {
    if x >= 128 {
      assert x as int * 2 == 256 + 2 * (x - 128);
    }
  }

  lemma LeftAfterRight(b: byte)
    ensures RotateLeft(RotateRight(b)) == b
  {
    var r := RotateRight(b);
    DoubleMod(r);
    BitOrLowBit((r as int * 2) % 256, r / 128);
  }

  lemma RightAfterLeft(b: byte)
    ensures RotateRight(RotateLeft(b)) == b
  {
    DoubleMod(b);
    BitOrLowBit((b as int * 2) % 256, b / 128);
    var l := RotateLeft(b);
    assert l / 2 == b % 128 && l % 2 == b / 128;
  }

  /** The per-byte map and the rotate-left-then-XOR map undo each other. */
  lemma FlipRotateInverse(b: byte)
    ensures Unflip(FlipRotate(b)) == b
    ensures FlipRotate(Unflip(b)) == b
  {
    RotateRoundTrip(Xor(b, MASK));
    XorUndo(b, MASK);
    RotateRoundTrip(b);
    XorUndo(RotateLeft(b), MASK);
  }

  /** Inverting every byte of an output recovers the input. */
  lemma UnflipAll(data: seq<byte>, out: seq<byte>)
    requires |out| == |data|
    requires forall i :: 0 <= i < |data| ==> out[i] == FlipRotate(data[i])
    ensures seq(|out|, i requires 0 <= i < |out| => Unflip(out[i])) == data
  {
    forall i | 0 <= i < |data|
      ensures Unflip(out[i]) == data[i]
    {
      FlipRotateInverse(data[i]);
    }
  }

  /** The mask itself goes to zero. */
  lemma MaskMapsToZero()
    ensures FlipRotate(0x55) == 0
  {
    XorCancel(0x55, 0);
    BitXorZero(0x55);
  }
}
