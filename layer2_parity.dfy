/** Layer 2 of the decoder: bytes whose parity bit is wrong are dropped,
    and the seven data bits of each remaining byte are streamed, most
    significant first, through a FIFO bit buffer that is cut into output
    bytes eight bits at a time.

    The specification is in three parts: `ValidBits` is the stream of data
    bits the valid bytes contribute, `Repack` cuts a bit stream into bytes,
    and `CheckParity` is proved to return `Repack(ValidBits(data))`. */
module Layer2Parity {
  import opened Bytes

  // ---------------------------------------------------------------------
  // Bit strings, most significant bit first
  // ---------------------------------------------------------------------

  /** The number a bit string spells, most significant bit first. */
  function BitsValue(bits: seq<bit>): nat
  {
    if bits == [] then 0 else 2 * BitsValue(bits[..|bits| - 1]) + bits[|bits| - 1]
  }

  lemma {:induction false} BitsValueBound(bits: seq<bit>)
    ensures BitsValue(bits) < Pow2(|bits|)
  {
    if bits != [] {
      BitsValueBound(bits[..|bits| - 1]);
    }
  }

  /** The low `n` bits of `v`, most significant first: bit `i` is
      `(v >> (n - 1 - i)) & 1`. */
  function BitsOf(v: nat, n: nat): (bits: seq<bit>)
    ensures |bits| == n
  {
    seq(n, i requires 0 <= i < n => (v / Pow2(n - 1 - i)) % 2)
  }

  lemma HalveDivMod(v: nat, p: nat)
    requires p >= 1
    ensures v / (2 * p) == (v / 2) / p
    ensures v % (2 * p) == 2 * ((v / 2) % p) + v % 2
  {
    var q, a, c := v / 2, (v / 2) / p, (v / 2) % p;
    assert v == 2 * p * a + (2 * c + v % 2) by {
      assert q == p * a + c;
      assert v == 2 * q + v % 2;
    }
    assert 0 <= 2 * c + v % 2 < 2 * p;
    DivModUnique(v, 2 * p, a, 2 * c + v % 2);
  }

  lemma DivModUnique(v: nat, d: nat, a: nat, c: nat)
    requires d >= 1 && v == d * a + c && c < d
    ensures v / d == a && v % d == c
  {
    var a', c' := v / d, v % d;
    assert v == d * a' + c';
    if a' < a {
      MulAtLeast(d, a - a');
      assert false;
    } else if a' > a {
      MulAtLeast(d, a' - a);
      assert false;
    }
  }

  lemma {:induction false} MulAtLeast(d: nat, k: nat)
    requires k >= 1
    ensures d * k >= d
  {
    if k > 1 {
      MulAtLeast(d, k - 1);
      assert d * k == d * (k - 1) + d;
    }
  }

  lemma BitsOfFront(v: nat, n: nat)
    requires n > 0
    ensures BitsOf(v, n)[..n - 1] == BitsOf(v / 2, n - 1)
  {
    forall i | 0 <= i < n - 1
      ensures BitsOf(v, n)[i] == BitsOf(v / 2, n - 1)[i]
    {
      var p := Pow2(n - 2 - i);
      assert Pow2(n - 1 - i) == 2 * p;
      HalveDivMod(v, p);
    }
  }

  /** `BitsOf` writes `v` in binary: reading the bits back gives the low
      `n` bits of `v`. */
  lemma {:induction false} BitsOfValue(v: nat, n: nat)
    ensures BitsValue(BitsOf(v, n)) == v % Pow2(n)
  {
    if n > 0 {
      var bits := BitsOf(v, n);
      BitsOfFront(v, n);
      BitsOfValue(v / 2, n - 1);
      var p := Pow2(n - 1);
      var front := BitsValue(bits[..n - 1]);
      assert front == (v / 2) % p;
      assert bits[n - 1] == v % 2 by {
        assert n - 1 - (n - 1) == 0;
        assert v / Pow2(0) == v;
      }
      assert BitsValue(bits) == 2 * front + v % 2;
      assert Pow2(n) == 2 * p;
      HalveDivMod(v, p);
    }
  }

  // ---------------------------------------------------------------------
  // The parity filter
  // ---------------------------------------------------------------------

  /** The parity bit (bit 0) equals the parity of the number of one bits
      among the data bits (bits 7..1). */
  predicate ParityOk(b: byte)
  {
    Popcount(b / 2) % 2 == b % 2
  }

  /** The seven data bits of a byte, most significant first. */
  function Field(b: byte): (bits: seq<bit>)
    ensures |bits| == 7
  {
    BitsOf(b / 2, 7)
  }

  /** The field spells the data bits `b >> 1`. */
  lemma FieldValue(b: byte)
    ensures BitsValue(Field(b)) == b / 2
  {
    BitsOfValue(b / 2, 7);
    assert Pow2(7) == 128;
  }

  /** The data bits the valid bytes of `data` contribute, in input order. */
  function ValidBits(data: seq<byte>): seq<bit>
  {
    if data == [] then []
    else
      var last := data[|data| - 1];
      ValidBits(data[..|data| - 1]) + (if ParityOk(last) then Field(last) else [])
  }

  /** Number of bytes with a correct parity bit. */
  function ValidCount(data: seq<byte>): nat
  {
    if data == [] then 0
    else ValidCount(data[..|data| - 1]) + (if ParityOk(data[|data| - 1]) then 1 else 0)
  }

  lemma {:induction false} ValidBitsLength(data: seq<byte>)
    ensures |ValidBits(data)| == 7 * ValidCount(data)
  {
    if data != [] {
      ValidBitsLength(data[..|data| - 1]);
    }
  }

  lemma {:induction false} ValidBitsAppend(a: seq<byte>, b: seq<byte>)
    ensures ValidBits(a + b) == ValidBits(a) + ValidBits(b)
  {
    if b == [] {
      assert a + b == a;
    } else {
      assert (a + b)[..|a + b| - 1] == a + b[..|b| - 1];
      ValidBitsAppend(a, b[..|b| - 1]);
    }
  }

  /** A byte with a wrong parity bit contributes nothing, wherever it is. */
  lemma InvalidByteIgnored(a: seq<byte>, x: byte, b: seq<byte>)
    requires !ParityOk(x)
    ensures ValidBits(a + [x] + b) == ValidBits(a + b)
  {
    ValidBitsAppend(a + [x], b);
    ValidBitsAppend(a, [x]);
    ValidBitsAppend(a, b);
    assert [x][..0] == [];
  }

  // ---------------------------------------------------------------------
  // Cutting a bit stream into bytes
  // ---------------------------------------------------------------------

  /** Whole groups of eight bits, each read most significant bit first;
      a trailing group of fewer than eight bits stays in the buffer. */
  function Repack(bits: seq<bit>): (r: seq<byte>)
    ensures |r| == |bits| / 8
    ensures forall k :: 0 <= k < |r| ==> r[k] == BitsValue(bits[8 * k..8 * k + 8])
  {
    if |bits| < 8 then []
    else
      var v := BitsValue(bits[..8]);
      BitsValueBound(bits[..8]);
      assert Pow2(8) == 256;
      var rest := Repack(bits[8..]);
      assert forall k :: 0 <= k < |rest| ==> bits[8..][8 * k..8 * k + 8] == bits[8 * (k + 1)..8 * (k + 1) + 8];
      [v] + rest
  }

  lemma {:induction false} RepackAppend(p: seq<bit>, q: seq<bit>)
    requires |p| % 8 == 0
    ensures Repack(p + q) == Repack(p) + Repack(q)
    decreases |p|
  {
    if p != [] {
      assert (p + q)[..8] == p[..8];
      assert (p + q)[8..] == p[8..] + q;
      RepackAppend(p[8..], q);
    } else {
      assert p + q == q;
    }
  }

  // ---------------------------------------------------------------------
  // check_parity
  // ---------------------------------------------------------------------

  /** One step of the packing loop: or-ing bit `i` in at position
      `7 - i` extends the value read so far by that bit. */
  lemma PackStep(bits: seq<bit>, i: nat)
    requires i < 8 && i < |bits|
    ensures BitOr(BitsValue(bits[..i]) * Pow2(8 - i), bits[i] * Pow2(7 - i))
         == BitsValue(bits[..i + 1]) * Pow2(7 - i)
  {
    var m, b, k := BitsValue(bits[..i]), bits[i], 7 - i;
    var p := Pow2(k);
    assert Pow2(k + 1) == 2 * p;
    BitOrFreshBit(m, k, b);
    assert bits[..i + 1][..i] == bits[..i];
    assert BitsValue(bits[..i + 1]) == 2 * m + b;
    Distribute(m, b, p);
  }

  lemma Distribute(m: nat, b: nat, p: nat)
    ensures m * (2 * p) + b * p == (2 * m + b) * p
  {
  }

  /** Pops the eight bits at the front of the buffer and packs them into a
      byte, the first popped bit in the top position. */
  method PackByte(buffer: seq<bit>) returns (byteVal: byte, rest: seq<bit>)
    requires |buffer| >= 8
    ensures byteVal == BitsValue(buffer[..8]) && rest == buffer[8..]
  {
    var acc := 0;
    rest := buffer;
    for i := 0 to 8
      invariant rest == buffer[i..]
      invariant acc == BitsValue(buffer[..i]) * Pow2(8 - i)
    {
      var b := rest[0];
      rest := rest[1..];
      PackStep(buffer, i);
      acc := BitOr(acc, b * Pow2(7 - i));
    }
    BitsValueBound(buffer[..8]);
    assert Pow2(8) == 256;
    byteVal := acc;
  }

  /** Appends the data bits of byte `b`, most significant first. */
  method PushField(buffer: seq<bit>, b: byte) returns (buffer': seq<bit>)
    ensures buffer' == buffer + Field(b)
  {
    var dataBits := b / 2;
    buffer' := buffer;
    for i := 0 to 7
      invariant buffer' == buffer + Field(b)[..i]
    {
      buffer' := buffer' + [(dataBits / Pow2(6 - i)) % 2];
    }
  }

  /** `check_parity`, with the buffer drained after every input byte. */
  method CheckParity(data: seq<byte>) returns (out: seq<byte>)
    ensures out == Repack(ValidBits(data))
  {
    out := [];
    var bitBuffer: seq<bit> := [];
    ghost var packed: seq<bit> := [];
    for j := 0 to |data|
      invariant ValidBits(data[..j]) == packed + bitBuffer
      invariant |packed| == 8 * |out| && out == Repack(packed)
      invariant |bitBuffer| < 8
    {
      var byte := data[j];
      var dataBits := byte / 2;
      var parityBit := byte % 2;
      var onesCount := Popcount(dataBits);
      var isValid := onesCount % 2 == parityBit;
      assert data[..j + 1][..j] == data[..j];
      if isValid {
        bitBuffer := PushField(bitBuffer, byte);
      }
      while |bitBuffer| >= 8
        invariant ValidBits(data[..j + 1]) == packed + bitBuffer
        invariant |packed| == 8 * |out| && out == Repack(packed)
        decreases |bitBuffer|
      {
        var byteVal;
        ghost var chunk := bitBuffer[..8];
        byteVal, bitBuffer := PackByte(bitBuffer);
        RepackAppend(packed, chunk);
        assert Repack(chunk) == [byteVal] by {
          assert chunk[0..8] == chunk;
        }
        packed := packed + chunk;
        out := out + [byteVal];
      }
    }
    assert data[..|data|] == data;
    RepackAppend(packed, bitBuffer);
  }

  /** The output holds seven bits per valid byte, whole bytes only. */
  lemma OutputLength(data: seq<byte>)
    ensures |Repack(ValidBits(data))| == 7 * ValidCount(data) / 8
  {
    ValidBitsLength(data);
  }

  /** Bytes whose parity is right and whose data bits are all `x`
      contribute a run of `x`. */
  lemma {:induction false} UniformValidBits(data: seq<byte>, x: bit)
    requires forall i :: 0 <= i < |data| ==> ParityOk(data[i]) && Field(data[i]) == seq(7, _ => x)
    ensures ValidBits(data) == seq(7 * |data|, _ => x)
  {
    if data != [] {
      UniformValidBits(data[..|data| - 1], x);
    }
  }

  /** A run of equal bits packs into a run of equal bytes. */
  lemma UniformRepack(n: nat, x: bit)
    ensures Repack(seq(n, _ => x)) == seq(n / 8, _ => BitsValue(seq(8, _ => x)))
  {
    var bits := seq(n, _ => x);
    forall k | 0 <= k < n / 8
      ensures bits[8 * k..8 * k + 8] == seq(8, _ => x)
    {
    }
  }

  /** An empty input gives an empty output. */
  lemma EmptyInput()
    ensures Repack(ValidBits([])) == []
  {
  }

  /** Eight bytes 0x00 (data 0, parity 0) give seven bytes 0x00. */
  lemma EightZeros()
    ensures Repack(ValidBits(seq(8, _ => 0))) == seq(7, _ => 0)
  {
    assert Field(0) == seq(7, _ => 0);
    UniformValidBits(seq(8, _ => 0), 0);
    UniformRepack(56, 0);
    assert BitsValue(seq(8, _ => 0)) == 0 by {
      AllZeroValue(8);
    }
  }

  lemma {:induction false} AllZeroValue(n: nat)
    ensures BitsValue(seq(n, _ => 0)) == 0
  {
    if n > 0 {
      assert seq(n, _ => 0)[..n - 1] == seq(n - 1, _ => 0);
      AllZeroValue(n - 1);
    }
  }

  lemma {:induction false} AllOneValue(n: nat)
    ensures BitsValue(seq(n, _ => 1)) == Pow2(n) - 1
  {
    if n > 0 {
      assert seq(n, _ => 1)[..n - 1] == seq(n - 1, _ => 1);
      AllOneValue(n - 1);
    }
  }

  lemma {:induction false} BitsOfAllOnes(n: nat)
    ensures BitsOf(Pow2(n) - 1, n) == seq(n, _ => 1)
  {
    if n > 0 {
      var v := Pow2(n) - 1;
      assert v / 2 == Pow2(n - 1) - 1 && v % 2 == 1;
      BitsOfFront(v, n);
      BitsOfAllOnes(n - 1);
      assert BitsOf(v, n)[n - 1] == 1 by {
        assert n - 1 - (n - 1) == 0;
        assert v / Pow2(0) == v;
      }
      assert BitsOf(v, n) == BitsOf(v, n)[..n - 1] + [BitsOf(v, n)[n - 1]];
    }
  }

  /** Eight bytes 0xFF (data 0x7F, parity 1) give seven bytes 0xFF. */
  lemma EightOnes()
    ensures Repack(ValidBits(seq(8, _ => 0xFF))) == seq(7, _ => 0xFF)
  {
    OnesField(0xFF);
    UniformValidBits(seq(8, _ => 0xFF), 1);
    UniformRepack(56, 1);
    AllOneValue(8);
    assert Pow2(8) == 256;
  }

  /** 0xFF has correct parity and seven one bits of data. */
  lemma OnesField(b: byte)
    requires b == 0xFF
    ensures ParityOk(b) && Field(b) == seq(7, _ => 1)
  {
    assert b / 2 == 127 && b % 2 == 1;
    assert Popcount(127) == 7;
    assert Pow2(7) - 1 == 127;
    BitsOfAllOnes(7);
  }

  /** A byte 0x01 (data 0, parity 1: wrong) among eight 0x00 is dropped. */
  lemma InvalidAmongZeros()
    ensures Repack(ValidBits(seq(4, _ => 0) + [0x01] + seq(4, _ => 0))) == seq(7, _ => 0)
  {
    InvalidByteIgnored(seq(4, _ => 0), 0x01, seq(4, _ => 0));
    assert seq(4, _ => 0) + seq(4, _ => 0) == seq(8, _ => 0);
    EightZeros();
  }
}
