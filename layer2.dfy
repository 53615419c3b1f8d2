/** The second copy of layer 2. It drains the bit buffer only right after
    a valid byte has filled it, where `Layer2Parity.CheckParity` drains it
    after every byte; since an invalid byte leaves the buffer as it was
    (under eight bits), both return `Repack(ValidBits(data))`. */
module Layer2 {
  import opened Bytes
  import opened Layer2Parity

  method CheckParity(data: seq<byte>) returns (out: seq<byte>)
    ensures out == Repack(ValidBits(data))
  {
    out := [];
    var bitBuffer: seq<bit> := [];
    ghost var packed: seq<bit> := [];
    for j := 0 to |data|
      invariant ValidBits(data[..j]) == packed + bitBuffer
      invariant |packed| == 8 * |out| && out == Repack(packed)
      invariant |bitBuffer| < 8
    {
      var byte := data[j];
      var dataBits := byte / 2;
      var parityBit := byte % 2;
      var onesCount := Popcount(dataBits);
      var isValid := onesCount % 2 == parityBit;
      assert data[..j + 1][..j] == data[..j];
      if isValid {
        bitBuffer := PushField(bitBuffer, byte);
        while |bitBuffer| >= 8
          invariant ValidBits(data[..j + 1]) == packed + bitBuffer
          invariant |packed| == 8 * |out| && out == Repack(packed)
          decreases |bitBuffer|
        {
          var byteVal;
          ghost var chunk := bitBuffer[..8];
          byteVal, bitBuffer := PackByte(bitBuffer);
          RepackAppend(packed, chunk);
          assert Repack(chunk) == [byteVal] by {
            assert chunk[0..8] == chunk;
          }
          packed := packed + chunk;
          out := out + [byteVal];
        }
      }
    }
    assert data[..|data|] == data;
    RepackAppend(packed, bitBuffer);
  }
}
