/** The second copy of layer 1, with the rotation written as one
    expression, `(f >> 1) | ((f & 1) << 7)`. Its contract is stated in
    terms of the per-byte map of `Layer1FlipRotate`, which makes the two
    copies agree on every input. */
module Layer1 {
  import opened Bytes
  import Layer1FlipRotate

  method FlipAndRotate(data: seq<byte>) returns (out: seq<byte>)
    ensures |out| == |data|
    ensures forall i :: 0 <= i < |data| ==> out[i] == Layer1FlipRotate.FlipRotate(data[i])
  {
    out := [];
    for j := 0 to |data|
      invariant |out| == j
      invariant forall i :: 0 <= i < j ==> out[i] == Layer1FlipRotate.FlipRotate(data[i])
    {
      var flipped := Xor(data[j], 0x55);
      assert Pow2(7) == 128;
      BitOrHighBit(flipped / 2, flipped % 2, 7);
      var rotated := BitOr(flipped / 2, (flipped % 2) * 128);
      out := out + [rotated];
    }
  }

  /** The per-byte map is a bijection on 0..255: one-to-one, and onto with
      `Unflip` giving the preimage. */
  lemma ByteMapBijective()
    ensures forall x: byte, y: byte ::
      Layer1FlipRotate.FlipRotate(x) == Layer1FlipRotate.FlipRotate(y) ==> x == y
    ensures forall r: byte :: Layer1FlipRotate.FlipRotate(Layer1FlipRotate.Unflip(r)) == r
  {
    forall x: byte, y: byte | Layer1FlipRotate.FlipRotate(x) == Layer1FlipRotate.FlipRotate(y)
      ensures x == y
    {
      Layer1FlipRotate.FlipRotateInverse(x);
      Layer1FlipRotate.FlipRotateInverse(y);
    }
    forall r: byte
      ensures Layer1FlipRotate.FlipRotate(Layer1FlipRotate.Unflip(r)) == r
    {
      Layer1FlipRotate.FlipRotateInverse(r);
    }
  }
}
