/** Layer 3 of the decoder: the payload was encrypted with a repeating XOR
    key of a given length, after every byte had its low bit flipped. Each
    key byte is recovered on its own column of the payload by trying all
    256 values and keeping the one whose decryption scores best as English
    text; the payload is then decrypted and the low bit flipped back. */
module Layer3XorDec {
  import opened Bytes

  // ---------------------------------------------------------------------
  // score_english
  // ---------------------------------------------------------------------

  /** What one byte adds to the English score: a space 5, a letter 3,
      a comma, full stop or apostrophe 1, any other printable byte 0, and
      anything else -10. */
  function ByteScore(b: byte): (s: int)
    ensures s == 5 <==> b == 32
    ensures s >= 0 <==> 32 <= b <= 126
    ensures s < 5 ==> s <= 3
  {
    if b == 32 then 5
    else if 65 <= b <= 90 || 97 <= b <= 122 then 3
    else if b == 44 || b == 46 || b == 39 then 1
    else if 32 <= b <= 126 then 0
    else -10
  }

  /** The English score of a byte string: the sum of its bytes' scores. */
  function Score(bs: seq<byte>): int
  {
    if bs == [] then 0 else Score(bs[..|bs| - 1]) + ByteScore(bs[|bs| - 1])
  }

  /** `score_english`: the score accumulated over the bytes in order. */
  method ScoreEnglish(bs: seq<byte>) returns (score: int)
    ensures score == Score(bs)
  {
    score := 0;
    for i := 0 to |bs|
      invariant score == Score(bs[..i])
    {
      var b := bs[i];
      assert bs[..i + 1][..i] == bs[..i];
      if b == 32 {
        score := score + 5;
      } else if 65 <= b <= 90 || 97 <= b <= 122 {
        score := score + 3;
      } else if b == 44 || b == 46 || b == 39 {
        score := score + 1;
      } else if 32 <= b <= 126 {
        score := score + 0;
      } else {
        score := score - 10;
      }
    }
    assert bs[..|bs|] == bs;
  }

  lemma {:induction false} ScoreBounds(bs: seq<byte>)
    ensures -10 * |bs| <= Score(bs) <= 5 * |bs|
  {
    if bs != [] {
      ScoreBounds(bs[..|bs| - 1]);
    }
  }

  /** Only a string of spaces reaches five points a byte. */
  lemma {:induction false} ScoreTopOnlySpaces(bs: seq<byte>)
    ensures Score(bs) == 5 * |bs| <==> forall i :: 0 <= i < |bs| ==> bs[i] == 32
  {
    if bs != [] {
      var front := bs[..|bs| - 1];
      ScoreTopOnlySpaces(front);
      ScoreBounds(front);
      if Score(bs) == 5 * |bs| {
        assert ByteScore(bs[|bs| - 1]) == 5;
      }
    }
  }

  // ---------------------------------------------------------------------
  // Key recovery
  // ---------------------------------------------------------------------

  /** `payload[i::n]`: the bytes at positions i, i + n, i + 2n, ... */
  function Column(payload: seq<byte>, i: nat, n: nat): (col: seq<byte>)
    requires n >= 1
    ensures forall k :: 0 <= k < |col| ==> i + k * n < |payload| && col[k] == payload[i + k * n]
    ensures i + |col| * n >= |payload|
    decreases |payload| - i
  {
    if i >= |payload| then []
    else
      var rest := Column(payload, i + n, n);
      ConsColumn(payload, i, n, rest);
      [payload[i]] + rest
  }

  lemma ConsColumn(payload: seq<byte>, i: nat, n: nat, rest: seq<byte>)
    requires n >= 1 && i < |payload|
    requires forall k :: 0 <= k < |rest| ==> i + n + k * n < |payload| && rest[k] == payload[i + n + k * n]
    requires i + n + |rest| * n >= |payload|
    ensures var col := [payload[i]] + rest;
      (forall k :: 0 <= k < |col| ==> i + k * n < |payload| && col[k] == payload[i + k * n])
      && i + |col| * n >= |payload|
  {
    var col := [payload[i]] + rest;
    forall k | 1 <= k < |col|
      ensures i + k * n < |payload| && col[k] == payload[i + k * n]
    {
      ConsColumnAt(payload, i, n, rest, k);
    }
    MulSucc(|rest|, n);
  }

  /** One position of a column that is built by putting a byte in front. */
  lemma ConsColumnAt(payload: seq<byte>, i: nat, n: nat, rest: seq<byte>, k: nat)
    requires i < |payload| && 1 <= k <= |rest|
    requires i + n + (k - 1) * n < |payload| && rest[k - 1] == payload[i + n + (k - 1) * n]
    ensures i + k * n < |payload| && ([payload[i]] + rest)[k] == payload[i + k * n]
  {
    MulSucc(k - 1, n);
  }

  lemma MulSucc(k: nat, n: nat)
    ensures (k + 1) * n == k * n + n
  {
  }

  /** A column XOR-ed with a candidate key byte `k`. */
  function Decode(col: seq<byte>, k: byte): (decoded: seq<byte>)
    ensures |decoded| == |col|
  {
    seq(|col|, j requires 0 <= j < |col| => Xor(col[j], k))
  }

  function KeyScore(col: seq<byte>, k: byte): int
  {
    Score(Decode(col, k))
  }

  /** The initial best score, below any score a column of fewer than 10^8
      bytes can reach. */
  const SENTINEL: int := -1_000_000_000

  /** What holds after the candidates below `k` have been tried, with
      `bestScore` and `bestKey` the running best. */
  ghost predicate SearchInv(col: seq<byte>, k: nat, bestScore: int, bestKey: byte)
  {
    && k <= 256 && bestScore >= SENTINEL
    && (forall j :: 0 <= j < k ==> KeyScore(col, j) <= bestScore)
    && (bestScore == SENTINEL ==> bestKey == 0)
    && (bestScore > SENTINEL ==>
          bestKey < k && KeyScore(col, bestKey) == bestScore
          && forall j :: 0 <= j < bestKey ==> KeyScore(col, j) < bestScore)
  }

  /** The running best after trying the candidates from `k` on; a strictly
      higher score replaces the best, so ties keep the earlier key. */
  function BestFrom(col: seq<byte>, k: nat, bestScore: int, bestKey: byte): (best: (int, byte))
    requires k <= 256
    decreases 256 - k
  {
    if k == 256 then (bestScore, bestKey)
    else
      var s := KeyScore(col, k);
      if s > bestScore then BestFrom(col, k + 1, s, k) else BestFrom(col, k + 1, bestScore, bestKey)
  }

  lemma {:induction false} BestFromKeepsInv(col: seq<byte>, k: nat, bestScore: int, bestKey: byte)
    requires SearchInv(col, k, bestScore, bestKey)
    ensures SearchInv(col, 256, BestFrom(col, k, bestScore, bestKey).0, BestFrom(col, k, bestScore, bestKey).1)
    decreases 256 - k
  {
    if k < 256 {
      var s := KeyScore(col, k);
      if s > bestScore {
        BestFromKeepsInv(col, k + 1, s, k);
      } else {
        BestFromKeepsInv(col, k + 1, bestScore, bestKey);
      }
    }
  }

  /** The key byte the search keeps for a column: the least candidate with
      the highest score, provided that score beats the sentinel; if no
      candidate does, the initial 0. */
  function ChosenKey(col: seq<byte>): (best: byte)
    ensures KeyScore(col, best) > SENTINEL ==>
      (forall k :: 0 <= k < 256 ==> KeyScore(col, k) <= KeyScore(col, best))
      && (forall k :: 0 <= k < best ==> KeyScore(col, k) < KeyScore(col, best))
    ensures KeyScore(col, best) <= SENTINEL ==>
      best == 0 && forall k :: 0 <= k < 256 ==> KeyScore(col, k) <= SENTINEL
  {
    BestFromKeepsInv(col, 0, SENTINEL, 0);
    BestFrom(col, 0, SENTINEL, 0).1
  }

  /** The inner search loop: every candidate key byte is scored on the
      column and a strictly better score replaces the best. */
  method KeyByte(column: seq<byte>) returns (bestKey: byte)
    ensures bestKey == ChosenKey(column)
  {
    var bestScore := SENTINEL;
    bestKey := 0;
    for k := 0 to 256
      invariant BestFrom(column, k, bestScore, bestKey) == BestFrom(column, 0, SENTINEL, 0)
    {
      var decoded := Decode(column, k);
      var s := ScoreEnglish(decoded);
      if s > bestScore {
        bestScore := s;
        bestKey := k;
      }
    }
  }

  /** The key `decrypt_xor` recovers: one chosen byte per column. */
  function RecoveredKey(payload: seq<byte>, n: nat): (key: seq<byte>)
    requires n >= 1
    ensures |key| == n
  {
    seq(n, i requires 0 <= i < n => ChosenKey(Column(payload, i, n)))
  }

  // ---------------------------------------------------------------------
  // Decryption
  // ---------------------------------------------------------------------

  /** Decryption with a given key, then the flip of bit 0. */
  function Decrypt(payload: seq<byte>, key: seq<byte>): (plain: seq<byte>)
    requires |key| >= 1
    ensures |plain| == |payload|
  {
    seq(|payload|, i requires 0 <= i < |payload| => Xor(Xor(payload[i], key[i % |key|]), 1))
  }

  /** The encryption the decryption undoes: flip bit 0, then XOR with the
      repeating key. */
  function Encrypt(plain: seq<byte>, key: seq<byte>): (cipher: seq<byte>)
    requires |key| >= 1
  {
    seq(|plain|, i requires 0 <= i < |plain| => Xor(Xor(plain[i], 1), key[i % |key|]))
  }

  lemma DecryptEncrypt(plain: seq<byte>, key: seq<byte>)
    requires |key| >= 1
    ensures Decrypt(Encrypt(plain, key), key) == plain
  {
    var cipher := Encrypt(plain, key);
    forall i | 0 <= i < |plain|
      ensures Decrypt(cipher, key)[i] == plain[i]
    {
      XorUndo(Xor(plain[i], 1), key[i % |key|]);
      XorUndo(plain[i], 1);
    }
  }

  /** Why `decrypt_xor` can fail: `bytearray` of a negative length, and
      `i % key_len` with a zero key length. */
  datatype DecryptError = NegativeCount | ZeroModulo

  /** The outer search loop: `bytearray(key_len)` filled one column at a
      time. */
  method RecoverKey(payload: seq<byte>, keyLen: nat) returns (key: seq<byte>)
    ensures |key| == keyLen
    ensures keyLen >= 1 ==> key == RecoveredKey(payload, keyLen)
  {
    key := seq(keyLen, _ => 0);
    for i := 0 to keyLen
      invariant |key| == keyLen
      invariant forall j :: 0 <= j < i ==> key[j] == ChosenKey(Column(payload, j, keyLen))
    {
      var column := Column(payload, i, keyLen);
      var best := KeyByte(column);
      key := key[i := best];
    }
  }

  /** `decrypt_xor`: recover the key column by column, decrypt, and flip
      bit 0 of every byte. */
  method DecryptXor(payload: seq<byte>, keyLen: int) returns (r: Result<seq<byte>, DecryptError>)
    ensures keyLen < 0 ==> r == Err(NegativeCount)
    ensures keyLen == 0 ==> r == (if payload == [] then Ok([]) else Err(ZeroModulo))
    ensures keyLen >= 1 ==> r == Ok(Decrypt(payload, RecoveredKey(payload, keyLen)))
  {
    if keyLen < 0 {
      return Err(NegativeCount);
    }
    var key := RecoverKey(payload, keyLen);
    if keyLen == 0 {
      // The key is empty and the first `i % key_len` divides by zero.
      return if payload == [] then Ok([]) else Err(ZeroModulo);
    }
    var decryptedBytes := XorWithKey(payload, key);
    var corrected := seq(|decryptedBytes|, i requires 0 <= i < |decryptedBytes| => Xor(decryptedBytes[i], 1));
    assert corrected == Decrypt(payload, key);
    return Ok(corrected);
  }

  /** The decryption loop of `decrypt_xor`: each byte XOR-ed with the key
      byte at its position modulo the key length. */
  method XorWithKey(payload: seq<byte>, key: seq<byte>) returns (decryptedBytes: seq<byte>)
    requires |key| >= 1
    ensures |decryptedBytes| == |payload|
    ensures forall j :: 0 <= j < |payload| ==> decryptedBytes[j] == Xor(payload[j], key[j % |key|])
  {
    decryptedBytes := [];
    for i := 0 to |payload|
      invariant |decryptedBytes| == i
      invariant forall j :: 0 <= j < i ==> decryptedBytes[j] == Xor(payload[j], key[j % |key|])
    {
      var keyByte := key[i % |key|];
      decryptedBytes := decryptedBytes + [Xor(payload[i], keyByte)];
    }
  }

  // ---------------------------------------------------------------------
  // Recovery on a column of equal bytes
  // ---------------------------------------------------------------------

  lemma {:induction false} ScoreConst(n: nat, x: byte)
    ensures Score(seq(n, _ => x)) == n * ByteScore(x)
  {
    if n > 0 {
      assert seq(n, _ => x)[..n - 1] == seq(n - 1, _ => x);
      ScoreConst(n - 1, x);
    }
  }

  lemma KeyScoreConst(c: byte, n: nat, k: byte)
    ensures KeyScore(seq(n, _ => c), k) == n * ByteScore(Xor(c, k))
  {
    assert Decode(seq(n, _ => c), k) == seq(n, _ => Xor(c, k));
    ScoreConst(n, Xor(c, k));
  }

  lemma MulMono(n: nat, a: int, b: int)
    requires a <= b
    ensures n * a <= n * b
  {
  }

  lemma MulTop(n: nat, a: int)
    requires n >= 1 && a <= 5 && n * a >= n * 5
    ensures a == 5
  {
    if a < 5 {
      MulMono(n, a, 4);
    }
  }

  /** On a column of n >= 1 equal bytes `c`, the search returns the one key
      that turns them into spaces. */
  lemma ConstantColumnKey(c: byte, n: nat)
    requires n >= 1
    ensures ChosenKey(seq(n, _ => c)) == Xor(c, 32)
  {
    var col: seq<byte> := seq(n, _ => c);
    var target := Xor(c, 32);
    XorCancel(c, 32);
    KeyScoreConst(c, n, target);
    var best := ChosenKey(col);
    assert KeyScore(col, target) <= KeyScore(col, best);
    KeyScoreConst(c, n, best);
    MulTop(n, ByteScore(Xor(c, best)));
    XorCancel(c, best);
  }

  /** A run of '!' encrypted with any one-byte key decrypts back with key
      length 1: the flipped plaintext is all spaces, the best text there
      is. */
  lemma BangRoundTrip(n: nat, k: byte)
    requires n >= 1
    ensures var cipher := Encrypt(seq(n, _ => 33), [k]);
      Decrypt(cipher, RecoveredKey(cipher, 1)) == seq(n, _ => 33)
  {
    var cipher := Encrypt(seq(n, _ => 33), [k]);
    var c := Xor(32, k);
    assert Xor(33, 1) == 32;
    assert cipher == seq(n, _ => c);
    assert Column(cipher, 0, 1) == cipher;
    ConstantColumnKey(c, n);
    XorUndo(32, k);
    XorComm(c, 32);
    XorCancel(32, k);
    assert RecoveredKey(cipher, 1) == [k];
    DecryptEncrypt(seq(n, _ => 33), [k]);
  }
}
