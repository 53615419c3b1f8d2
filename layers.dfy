/** The combined layer module, which repeats the payload extraction and
    the transforms of layers 1 to 3 in one place. Each copy is stated
    against the specification functions of the layer it repeats, so the
    two copies agree on every input. */
module Layers {
  import opened Bytes
  import Helpers
  import Layer1FlipRotate
  import Layer2Parity
  import Layer3XorDec

  // ---------------------------------------------------------------------
  // get_payload_from_layer_output
  // ---------------------------------------------------------------------

  const PAYLOAD_MARKER: string := "==[ Payload ]=="
  const ASCII85_MARKER: string := "<~"
  const ASCII85_MARKER_END: string := "~>"

  /** The marker search on the text of a layer's output file, with this
      module's own copy of the three markers. It finds the same block as
      the helper, and the block runs from `<~` through `~>`. */
  function GetPayload(text: string): (r: Result<string, Helpers.PayloadError>)
    ensures r == Helpers.GetPayload(text)
    ensures r.Ok? ==> |r.value| >= 3 && r.value[..2] == "<~" && r.value[|r.value| - 2..] == "~>"
  {
    var r := Helpers.ExtractBlock(text, PAYLOAD_MARKER, ASCII85_MARKER, ASCII85_MARKER_END);
    if r.Ok? then Helpers.GetPayloadShape(text); r else r
  }

  // ---------------------------------------------------------------------
  // flip_and_rotate
  // ---------------------------------------------------------------------

  method FlipAndRotate(data: seq<byte>) returns (out: seq<byte>)
    ensures |out| == |data|
    ensures forall i :: 0 <= i < |data| ==> out[i] == Layer1FlipRotate.FlipRotate(data[i])
  {
    out := [];
    for j := 0 to |data|
      invariant |out| == j
      invariant forall i :: 0 <= i < j ==> out[i] == Layer1FlipRotate.FlipRotate(data[i])
    {
      var flipped := Xor(data[j], 0x55);
      assert Pow2(7) == 128;
      BitOrHighBit(flipped / 2, flipped % 2, 7);
      var rotated := BitOr(flipped / 2, (flipped % 2) * 128);
      out := out + [rotated];
    }
  }

  // ---------------------------------------------------------------------
  // check_parity
  // ---------------------------------------------------------------------

  /** The buffer is drained only after a valid byte has been appended. */
  method CheckParity(data: seq<byte>) returns (out: seq<byte>)
    ensures out == Layer2Parity.Repack(Layer2Parity.ValidBits(data))
  {
    out := [];
    var bitBuffer: seq<bit> := [];
    ghost var packed: seq<bit> := [];
    for j := 0 to |data|
      invariant Layer2Parity.ValidBits(data[..j]) == packed + bitBuffer
      invariant |packed| == 8 * |out| && out == Layer2Parity.Repack(packed)
      invariant |bitBuffer| < 8
    {
      var byte := data[j];
      var dataBits := byte / 2;
      var parityBit := byte % 2;
      var onesCount := Popcount(dataBits);
      var isValid := onesCount % 2 == parityBit;
      assert data[..j + 1][..j] == data[..j];
      if isValid {
        bitBuffer := Layer2Parity.PushField(bitBuffer, byte);
        while |bitBuffer| >= 8
          invariant Layer2Parity.ValidBits(data[..j + 1]) == packed + bitBuffer
          invariant |packed| == 8 * |out| && out == Layer2Parity.Repack(packed)
          decreases |bitBuffer|
        {
          var byteVal;
          ghost var chunk := bitBuffer[..8];
          byteVal, bitBuffer := Layer2Parity.PackByte(bitBuffer);
          Layer2Parity.RepackAppend(packed, chunk);
          assert Layer2Parity.Repack(chunk) == [byteVal] by {
            assert chunk[0..8] == chunk;
          }
          packed := packed + chunk;
          out := out + [byteVal];
        }
      }
    }
    assert data[..|data|] == data;
    Layer2Parity.RepackAppend(packed, bitBuffer);
  }

  // ---------------------------------------------------------------------
  // decrypt_xor
  // ---------------------------------------------------------------------

  /** The local `score_english`, which tests capitals and small letters in
      two branches of the same weight. */
  method ScoreEnglish(bs: seq<byte>) returns (score: int)
    ensures score == Layer3XorDec.Score(bs)
  {
    score := 0;
    for i := 0 to |bs|
      invariant score == Layer3XorDec.Score(bs[..i])
    {
      var b := bs[i];
      assert bs[..i + 1][..i] == bs[..i];
      if b == 32 {
        score := score + 5;
      } else if 65 <= b <= 90 {
        score := score + 3;
      } else if 97 <= b <= 122 {
        score := score + 3;
      } else if b == 44 || b == 46 || b == 39 {
        score := score + 1;
      } else if 32 <= b <= 126 {
        score := score + 0;
      } else {
        score := score - 10;
      }
    }
    assert bs[..|bs|] == bs;
  }

  /** The search over the 256 candidate key bytes of one column. */
  method KeyByte(column: seq<byte>) returns (bestKey: byte)
    ensures bestKey == Layer3XorDec.ChosenKey(column)
  {
    var bestScore := Layer3XorDec.SENTINEL;
    bestKey := 0;
    for k := 0 to 256
      invariant Layer3XorDec.BestFrom(column, k, bestScore, bestKey)
             == Layer3XorDec.BestFrom(column, 0, Layer3XorDec.SENTINEL, 0)
    {
      var decoded := Layer3XorDec.Decode(column, k);
      var s := ScoreEnglish(decoded);
      if s > bestScore {
        bestScore := s;
        bestKey := k;
      }
    }
  }

  /** The key loop of `decrypt_xor`: `bytearray(key_len)` filled one
      column at a time. */
  method RecoverKey(payload: seq<byte>, keyLen: nat) returns (key: seq<byte>)
    ensures |key| == keyLen
    ensures keyLen >= 1 ==> key == Layer3XorDec.RecoveredKey(payload, keyLen)
  {
    key := seq(keyLen, _ => 0);
    for i := 0 to keyLen
      invariant |key| == keyLen
      invariant forall j :: 0 <= j < i ==>
        key[j] == Layer3XorDec.ChosenKey(Layer3XorDec.Column(payload, j, keyLen))
    {
      var column := Layer3XorDec.Column(payload, i, keyLen);
      var best := KeyByte(column);
      key := key[i := best];
    }
  }

  /** `decrypt_xor`: the key recovered column by column, then the
      decryption and the flip of bit 0 as two comprehensions. */
  method DecryptXor(payload: seq<byte>, keyLen: int) returns (r: Result<seq<byte>, Layer3XorDec.DecryptError>)
    ensures keyLen < 0 ==> r == Err(Layer3XorDec.NegativeCount)
    ensures keyLen == 0 ==> r == (if payload == [] then Ok([]) else Err(Layer3XorDec.ZeroModulo))
    ensures keyLen >= 1 ==>
      r == Ok(Layer3XorDec.Decrypt(payload, Layer3XorDec.RecoveredKey(payload, keyLen)))
  {
    if keyLen < 0 {
      return Err(Layer3XorDec.NegativeCount);
    }
    var key := RecoverKey(payload, keyLen);
    if keyLen == 0 {
      // The key is empty and the first `i % key_len` divides by zero.
      return if payload == [] then Ok([]) else Err(Layer3XorDec.ZeroModulo);
    }
    var decrypted := seq(|payload|, i requires 0 <= i < |payload| => Xor(payload[i], key[i % keyLen]));
    var corrected := seq(|decrypted|, i requires 0 <= i < |decrypted| => Xor(decrypted[i], 1));
    assert corrected == Layer3XorDec.Decrypt(payload, key);
    return Ok(corrected);
  }
}
