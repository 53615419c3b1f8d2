/** Shared helpers of the decoder (src/helpers.py): the bounds-checked
    memory accessors the VM uses, the Internet checksum, the hex parser for
    the bundled VM program, and the marker search that cuts the payload out
    of a layer's output text. */
module Helpers {
  import opened Bytes

  // ---------------------------------------------------------------------
  // Bounds-checked memory access
  // ---------------------------------------------------------------------

  /** `read_u8`: the byte at `addr`, or 0 outside the buffer. */
  function ReadU8(mem: seq<byte>, addr: int): byte
  {
    if 0 <= addr < |mem| then mem[addr] else 0
  }

  /** The buffer after `write_u8(mem, addr, v)`: the store is masked to a
      byte and silently dropped outside the buffer. */
  function Stored(mem: seq<byte>, addr: int, v: int): (r: seq<byte>)
    ensures |r| == |mem|
    ensures forall i :: 0 <= i < |mem| && i != addr ==> r[i] == mem[i]
    ensures 0 <= addr < |mem| ==> r[addr] == v % 256
  {
    if 0 <= addr < |mem| then mem[addr := v % 256] else mem
  }

  /** `write_u8`, which updates the bytearray in place. */
  method WriteU8(mem: array<byte>, addr: int, v: int)
    modifies mem
    ensures mem[..] == Stored(old(mem[..]), addr, v)
  {
    if 0 <= addr < mem.Length {
      mem[addr] := v % 256;
    }
  }

  /** A read after a write sees the written byte at that address and the
      old contents everywhere else. */
  lemma ReadAfterWrite(mem: seq<byte>, addr: int, v: int, at: int)
    ensures ReadU8(Stored(mem, addr, v), at)
            == if at == addr && 0 <= addr < |mem| then v % 256 else ReadU8(mem, at)
  {
  }

  /** The unsigned value of four bytes in little-endian order. */
  function LittleEndian(b0: byte, b1: byte, b2: byte, b3: byte): u32
  {
    b0 + 256 * b1 + 65536 * b2 + 16777216 * b3
  }

  /** `read_u32_le`: the little-endian word at `addr`, or 0 unless all four
      bytes lie inside the buffer. */
  function ReadU32Le(mem: seq<byte>, addr: int): u32
  {
    if addr < 0 || addr + 4 > |mem| then 0
    else LittleEndian(mem[addr], mem[addr + 1], mem[addr + 2], mem[addr + 3])
  }

  /** The four bytes that encode `v` little-endian. */
  function EncodeU32Le(v: u32): (r: seq<byte>)
    ensures |r| == 4
  {
    [v % 256, (v / 256) % 256, (v / 65536) % 256, v / 16777216]
  }

  /** Reading back an encoded word, wherever it sits, gives the word. */
  lemma ReadEncodedU32(prefix: seq<byte>, v: u32, suffix: seq<byte>)
    ensures ReadU32Le(prefix + EncodeU32Le(v) + suffix, |prefix|) == v
  {
    var mem := prefix + EncodeU32Le(v) + suffix;
    var a := |prefix|;
    assert mem[a] == v % 256 && mem[a + 1] == (v / 256) % 256;
    assert mem[a + 2] == (v / 65536) % 256 && mem[a + 3] == v / 16777216;
    var q1 := v / 256;
    var q2 := q1 / 256;
    assert v == v % 256 + 256 * q1;
    assert q1 == q1 % 256 + 256 * q2;
    assert q2 == v / 65536;
    assert q2 == q2 % 256 + 256 * (v / 16777216);
  }

  // ---------------------------------------------------------------------
  // Internet checksum (ones' complement sum of 16-bit words)
  // ---------------------------------------------------------------------

  /** Odd-length data gets one zero byte appended. */
  function Padded(data: seq<byte>): (r: seq<byte>)
    ensures |r| % 2 == 0 && data <= r && |r| <= |data| + 1
    ensures |r| == |data| + 1 ==> r[|data|] == 0
  {
    if |data| % 2 == 1 then data + [0] else data
  }

  /** Sum of the big-endian 16-bit words of even-length data. */
  function WordSum(data: seq<byte>): nat
    requires |data| % 2 == 0
  {
    if data == [] then 0
    else WordSum(data[..|data| - 2]) + data[|data| - 2] as int * 256 + data[|data| - 1]
  }

  /** One round of the end-around carry: the bits above 16 are added back in. */
  function Carry(s: nat): nat
  {
    s % 0x1_0000 + s / 0x1_0000
  }

  /** The sum folded into 16 bits by repeated end-around carry. */
  function Fold(s: nat): (r: nat)
    decreases s
  {
    if s < 0x1_0000 then s else Fold(Carry(s))
  }

  /** The ones'-complement value of a sum: the same residue modulo 0xFFFF,
      but 0xFFFF rather than 0 for a nonzero multiple of 0xFFFF. */
  function OnesValue(s: nat): (r: nat)
    ensures r <= 0xFFFF && (r == 0 <==> s == 0)
  {
    if s == 0 then 0 else (s - 1) % 0xFFFF + 1
  }

  /** Folding computes the ones'-complement value, so it always ends below
      2^16, and it is zero only for a zero sum. */
  lemma {:induction false} FoldIsOnesValue(s: nat)
    ensures Fold(s) == OnesValue(s) && Fold(s) < 0x1_0000
    decreases s
  {
    if s >= 0x1_0000 {
      var c := Carry(s);
      assert s == 0x1_0000 * (s / 0x1_0000) + s % 0x1_0000;
      assert s - c == 0xFFFF * (s / 0x1_0000);
      assert (s - 1) % 0xFFFF == (c - 1) % 0xFFFF by {
        assert (s - 1) == (c - 1) + 0xFFFF * (s / 0x1_0000);
      }
      FoldIsOnesValue(c);
    }
  }

  /** What `checksum` returns: the 16-bit complement of the folded sum. */
  function ChecksumOf(data: seq<byte>): int
  {
    (-(Fold(WordSum(Padded(data))) as int) - 1) % 0x1_0000
  }

  /** `checksum`: pad, add the words, fold the carries, complement. */
  method Checksum(data: seq<byte>) returns (c: int)
    ensures c == ChecksumOf(data)
  {
    var d := data;
    if |d| % 2 == 1 {
      d := d + [0];
    }
    var s: nat := 0;
    var i := 0;
    while i < |d|
      invariant 0 <= i <= |d| && i % 2 == 0 && d == Padded(data)
      invariant s == WordSum(d[..i])
    {
      assert d[..i + 2][..i] == d[..i];
      s := s + (d[i] as int * 256 + d[i + 1]);
      i := i + 2;
    }
    assert d[..i] == d;
    while s >= 0x1_0000
      invariant Fold(s) == Fold(WordSum(d))
      decreases s
    {
      s := s % 0x1_0000 + s / 0x1_0000;
    }
    c := (-(s as int) - 1) % 0x1_0000;
  }

  /** The checksum is a 16-bit value: the complement of the ones'-complement
      sum of the padded data. */
  lemma ChecksumIsComplement(data: seq<byte>)
    ensures 0 <= ChecksumOf(data) <= 0xFFFF
    ensures ChecksumOf(data) == 0xFFFF - OnesValue(WordSum(Padded(data)))
  {
    FoldIsOnesValue(WordSum(Padded(data)));
  }

  /** Appending the pad byte by hand changes nothing. */
  lemma ChecksumOddPad(data: seq<byte>)
    requires |data| % 2 == 1
    ensures ChecksumOf(data + [0]) == ChecksumOf(data)
  {
  }

  /** The two bytes of a 16-bit word, high byte first. */
  function BigEndian16(v: int): (r: seq<byte>)
    requires 0 <= v <= 0xFFFF
    ensures |r| == 2 && r[0] as int * 256 + r[1] == v
  {
    [v / 256, v % 256]
  }

  /** The receiver's check of RFC 1071: once the checksum is stored after
      even-length data, the checksum of the whole is 0. */
  lemma ChecksumVerifies(data: seq<byte>)
    requires |data| % 2 == 0
    ensures ChecksumOf(data + BigEndian16(ChecksumOf(data))) == 0
  {
    var w := WordSum(data);
    var c := ChecksumOf(data);
    ChecksumIsComplement(data);
    var full := data + BigEndian16(c);
    assert full[..|full| - 2] == data;
    assert WordSum(full) == w + c;
    assert OnesValue(w + c) == 0xFFFF by {
      if w == 0 {
      } else {
        var q := (w - 1) / 0xFFFF;
        assert w - 1 == 0xFFFF * q + (w - 1) % 0xFFFF;
        assert w + c - 1 == 0xFFFF * q + 0xFFFE;
      }
    }
    FoldIsOnesValue(w + c);
    assert Padded(full) == full;
  }

  // ---------------------------------------------------------------------
  // Hex text of a VM program
  // ---------------------------------------------------------------------

  /** The separators of `str.split()` with no argument, restricted to ASCII:
      space, tab, line feed, vertical tab, form feed, carriage return, and
      the four separator controls 0x1C..0x1F. */
  predicate IsSpace(c: char)
  {
    c == ' ' || 9 <= c as int <= 13 || 28 <= c as int <= 31
  }

  /** Length of the run of non-separators at the front of `s`. */
  function WordLen(s: string): (k: nat)
    ensures k <= |s| && (k < |s| ==> IsSpace(s[k]))
    ensures forall j :: 0 <= j < k ==> !IsSpace(s[j])
  {
    if s == [] || IsSpace(s[0]) then 0 else 1 + WordLen(s[1..])
  }

  /** `s.split()`: the maximal runs of non-separators, in order. */
  function Tokens(s: string): (ts: seq<string>)
    ensures forall t :: t in ts ==> t != [] && forall j :: 0 <= j < |t| ==> !IsSpace(t[j])
    decreases |s|
  {
    if s == [] then []
    else if IsSpace(s[0]) then Tokens(s[1..])
    else
      var k := WordLen(s);
      [s[..k]] + Tokens(s[k..])
  }

  /** Every character of `b` is a separator. */
  predicate AllSpace(b: string)
  {
    forall j :: 0 <= j < |b| ==> IsSpace(b[j])
  }

  /** `s` with its separators removed. */
  function NonSpace(s: string): string
  {
    if s == [] then []
    else (if IsSpace(s[0]) then [] else [s[0]]) + NonSpace(s[1..])
  }

  /** The strings of `ts` joined with nothing between them. */
  function Concat(ts: seq<string>): string
  {
    if ts == [] then [] else ts[0] + Concat(ts[1..])
  }

  lemma {:induction false} NonSpaceOfWord(w: string, rest: string)
    requires forall j :: 0 <= j < |w| ==> !IsSpace(w[j])
    ensures NonSpace(w + rest) == w + NonSpace(rest)
  {
    if w == [] {
      assert w + rest == rest;
    } else {
      assert (w + rest)[1..] == w[1..] + rest;
      NonSpaceOfWord(w[1..], rest);
      assert [w[0]] + (w[1..] + NonSpace(rest)) == w + NonSpace(rest);
    }
  }

  /** The tokens cover the string: joined together they are exactly its
      non-separator characters, in order. */
  lemma {:induction false} TokensCover(s: string)
    ensures Concat(Tokens(s)) == NonSpace(s)
    decreases |s|
  {
    if s != [] {
      if IsSpace(s[0]) {
        TokensCover(s[1..]);
      } else {
        var k := WordLen(s);
        TokensCover(s[k..]);
        NonSpaceOfWord(s[..k], s[k..]);
        assert s[..k] + s[k..] == s;
        assert Tokens(s)[1..] == Tokens(s[k..]);
      }
    }
  }

  /** The first token of `r` follows a (possibly empty) run of separators. */
  lemma {:induction false} FirstToken(r: string) returns (sp: string, c: string)
    requires Tokens(r) != []
    ensures r == sp + Tokens(r)[0] + c && AllSpace(sp)
    decreases |r|
  {
    if IsSpace(r[0]) {
      var sp', c' := FirstToken(r[1..]);
      sp, c := [r[0]] + sp', c';
      assert r == [r[0]] + r[1..];
    } else {
      var k := WordLen(r);
      sp, c := [], r[k..];
      assert r == r[..k] + r[k..];
    }
  }

  /** After a separator, the first token follows a non-empty gap. */
  lemma GapBeforeFirst(r: string) returns (sp: string, c: string)
    requires Tokens(r) != [] && IsSpace(r[0])
    ensures r == sp + Tokens(r)[0] + c && sp != [] && AllSpace(sp)
  {
    sp, c := FirstToken(r);
    var t := Tokens(r)[0];
    assert t != [] && !IsSpace(t[0]);
    assert |sp| == 0 ==> r == t + c;
  }

  /** The tokens of a string that starts with a word: that word, then the
      tokens of the rest, which is empty or starts with a separator. */
  lemma WordThenTokens(s: string) returns (k: nat)
    requires s != [] && !IsSpace(s[0])
    ensures 0 < k <= |s| && s == s[..k] + s[k..]
    ensures Tokens(s) == [s[..k]] + Tokens(s[k..])
    ensures s[k..] == [] || IsSpace(s[k..][0])
  {
    k := WordLen(s);
  }

  lemma SplitAt(s: string, k: nat)
    requires k <= |s|
    ensures s == s[..k] + s[k..]
  {
  }

  lemma Regroup(w: string, a: string, t: string, b: string, u: string, c: string)
    ensures w + (a + t + b + u + c) == (w + a) + t + b + u + c
  {
  }

  /** A leading separator adds nothing to the tokens; a decomposition of
      the rest extends to the whole string. */
  lemma SpaceStep(s: string, i: nat, a: string, b: string, c: string)
    requires s != [] && IsSpace(s[0]) && i + 1 < |Tokens(s[1..])|
    requires s[1..] == a + Tokens(s[1..])[i] + b + Tokens(s[1..])[i + 1] + c
    ensures i + 1 < |Tokens(s)|
    ensures s == ([s[0]] + a) + Tokens(s)[i] + b + Tokens(s)[i + 1] + c
  {
    var ts := Tokens(s[1..]);
    assert Tokens(s) == ts;
    SplitAt(s, 1);
    assert s[..1] == [s[0]];
    Regroup([s[0]], a, ts[i], b, ts[i + 1], c);
  }

  /** After a leading word `w`, a decomposition of the rest around its
      tokens `ts` extends to the whole string, whose tokens are `[w] + ts`. */
  lemma WordStep(s: string, w: string, rest: string, tokens: seq<string>, ts: seq<string>,
                 i: nat, a: string, b: string, c: string)
    requires s == w + rest && tokens == [w] + ts && i + 1 < |ts|
    requires rest == a + ts[i] + b + ts[i + 1] + c
    ensures i + 2 < |tokens|
    ensures s == (w + a) + tokens[i + 1] + b + tokens[i + 2] + c
  {
    assert tokens[i + 1] == ts[i] && tokens[i + 2] == ts[i + 1];
    Regroup(w, a, ts[i], b, ts[i + 1], c);
  }

  /** The first gap: a leading word `w`, then the rest, which starts with
      a non-empty run of separators before its first token. */
  lemma FirstGap(s: string, w: string, rest: string, tokens: seq<string>, ts: seq<string>,
                 b: string, c: string)
    requires s == w + rest && tokens == [w] + ts && ts != []
    requires rest == b + ts[0] + c
    ensures s == [] + tokens[0] + b + tokens[1] + c
  {
    assert tokens[0] == w && tokens[1] == ts[0];
    Regroup([], w, b, ts[0], c, []);
  }

  /** Consecutive tokens stand in `s` in order with a non-empty run of
      separators between them, so no token could be longer. */
  lemma {:induction false} TokensSeparated(s: string, i: nat) returns (a: string, b: string, c: string)
    requires i + 1 < |Tokens(s)|
    ensures s == a + Tokens(s)[i] + b + Tokens(s)[i + 1] + c
    ensures b != [] && AllSpace(b)
    decreases |s|, 1
  {
    if IsSpace(s[0]) {
      assert Tokens(s) == Tokens(s[1..]);
      var a', b', c' := TokensSeparated(s[1..], i);
      SpaceStep(s, i, a', b', c');
      a, b, c := [s[0]] + a', b', c';
    } else if i == 0 {
      a := [];
      b, c := FirstSeparated(s);
    } else {
      a, b, c := SeparatedAfterWord(s, i);
    }
  }

  /** The first two tokens of a string that starts with a word. */
  lemma FirstSeparated(s: string) returns (b: string, c: string)
    requires s != [] && !IsSpace(s[0]) && 1 < |Tokens(s)|
    ensures s == [] + Tokens(s)[0] + b + Tokens(s)[1] + c
    ensures b != [] && AllSpace(b)
  {
    var k := WordThenTokens(s);
    var w, rest := s[..k], s[k..];
    b, c := GapBeforeFirst(rest);
    FirstGap(s, w, rest, Tokens(s), Tokens(rest), b, c);
  }

  /** `TokensSeparated` past the first token of a string that starts
      with a word. */
  lemma {:induction false} SeparatedAfterWord(s: string, i: nat) returns (a: string, b: string, c: string)
    requires s != [] && !IsSpace(s[0]) && 0 < i && i + 1 < |Tokens(s)|
    ensures s == a + Tokens(s)[i] + b + Tokens(s)[i + 1] + c
    ensures b != [] && AllSpace(b)
    decreases |s|, 0
  {
    var k := WordThenTokens(s);
    var w, rest := s[..k], s[k..];
    var a', b', c' := TokensSeparated(rest, i - 1);
    WordStep(s, w, rest, Tokens(s), Tokens(rest), i - 1, a', b', c');
    a, b, c := w + a', b', c';
  }

  function HexDigit(c: char): Option<nat>
  {
    if '0' <= c <= '9' then Some(c as int - '0' as int)
    else if 'a' <= c <= 'f' then Some(c as int - 'a' as int + 10)
    else if 'A' <= c <= 'F' then Some(c as int - 'A' as int + 10)
    else None
  }

  /** The value of a string of hex digits, most significant first. */
  function DigitsValue(t: string): Option<nat>
  {
    if t == [] then Some(0)
    else
      match (DigitsValue(t[..|t| - 1]), HexDigit(t[|t| - 1]))
      case (Some(v), Some(d)) => Some(16 * v + d)
      case _ => None
  }

  /** The two ways `hex_to_bytes` fails: a token `int(x, 16)` rejects, and a
      value `bytes` rejects. */
  datatype HexError = NotHex(token: string) | OutOfRange(token: string)

  /** Each token in turn, stopping at the first one that fails. */
  function ParseTokens(ts: seq<string>): Result<seq<byte>, HexError>
  {
    if ts == [] then Ok([])
    else
      match DigitsValue(ts[0])
      case None => Err(NotHex(ts[0]))
      case Some(v) =>
        if v > 255 then Err(OutOfRange(ts[0]))
        else
          match ParseTokens(ts[1..])
          case Ok(rest) => Ok([v as byte] + rest)
          case Err(e) => Err(e)
  }

  /** `hex_to_bytes`: one byte per whitespace-separated token. */
  function HexToBytes(text: string): Result<seq<byte>, HexError>
  {
    ParseTokens(Tokens(text))
  }

  predicate ByteToken(t: string)
  {
    DigitsValue(t).Some? && DigitsValue(t).value <= 255
  }

  /** Parsing succeeds exactly when every token is hex for a value below
      256, and then gives one byte per token, that token's value. */
  lemma {:induction false} ParseTokensOk(ts: seq<string>)
    ensures ParseTokens(ts).Ok? <==> forall i :: 0 <= i < |ts| ==> ByteToken(ts[i])
    ensures ParseTokens(ts).Ok? ==>
      |ParseTokens(ts).value| == |ts|
      && forall i :: 0 <= i < |ts| ==> DigitsValue(ts[i]) == Some(ParseTokens(ts).value[i])
  {
    if ts != [] {
      ParseTokensOk(ts[1..]);
      if ByteToken(ts[0]) && ParseTokens(ts[1..]).Ok? {
        assert forall i :: 1 <= i < |ts| ==> ts[i] == ts[1..][i - 1];
      } else if ByteToken(ts[0]) {
        var j :| 0 <= j < |ts[1..]| && !ByteToken(ts[1..][j]);
        assert !ByteToken(ts[j + 1]);
      }
    }
  }

  /** `hex_to_bytes`: one byte per whitespace-separated token, that token
      read as hex; an error when some token is not hex or too large. */
  lemma HexToBytesTokens(text: string)
    ensures HexToBytes(text).Ok? <==> forall t :: t in Tokens(text) ==> ByteToken(t)
    ensures HexToBytes(text).Ok? ==>
      |HexToBytes(text).value| == |Tokens(text)|
      && forall i :: 0 <= i < |Tokens(text)| ==> DigitsValue(Tokens(text)[i]) == Some(HexToBytes(text).value[i])
  {
    var ts := Tokens(text);
    ParseTokensOk(ts);
    assert HexToBytes(text) == ParseTokens(ts);
  }

  function HexChar(d: nat): (c: char)
    requires d < 16
    ensures HexDigit(c) == Some(d)
  {
    if d < 10 then ('0' as int + d) as char else ('A' as int + d - 10) as char
  }

  /** A byte as two upper-case hex digits. */
  function Hex2(b: byte): string
  {
    [HexChar(b / 16), HexChar(b % 16)]
  }

  /** Bytes written the way the bundled program is written: two-digit
      tokens separated by single spaces. */
  function FormatHex(bs: seq<byte>): string
  {
    if bs == [] then ""
    else if |bs| == 1 then Hex2(bs[0])
    else Hex2(bs[0]) + " " + FormatHex(bs[1..])
  }

  lemma {:induction false} WordLenOf(w: string, rest: string)
    requires forall j :: 0 <= j < |w| ==> !IsSpace(w[j])
    requires rest == [] || IsSpace(rest[0])
    ensures WordLen(w + rest) == |w|
  {
    if w == [] {
      assert w + rest == rest;
    } else {
      assert (w + rest)[1..] == w[1..] + rest;
      WordLenOf(w[1..], rest);
    }
  }

  /** A word followed by a separator, or by nothing, is the first token. */
  lemma TokensOfWord(w: string, rest: string)
    requires w != [] && forall j :: 0 <= j < |w| ==> !IsSpace(w[j])
    requires rest == [] || IsSpace(rest[0])
    ensures Tokens(w + rest) == [w] + Tokens(rest)
  {
    WordLenOf(w, rest);
    assert (w + rest)[..|w|] == w;
    assert (w + rest)[|w|..] == rest;
  }

  lemma Hex2IsWord(b: byte)
    ensures |Hex2(b)| == 2 && forall j :: 0 <= j < 2 ==> !IsSpace(Hex2(b)[j])
  {
  }

  /** The two-digit tokens of `bs`, in order. */
  function Hex2s(bs: seq<byte>): (ts: seq<string>)
    ensures |ts| == |bs|
  {
    if bs == [] then [] else [Hex2(bs[0])] + Hex2s(bs[1..])
  }

  lemma {:induction false} TokensOfFormat(bs: seq<byte>)
    ensures Tokens(FormatHex(bs)) == Hex2s(bs)
  {
    if bs != [] {
      var h := Hex2(bs[0]);
      Hex2IsWord(bs[0]);
      if |bs| == 1 {
        TokensOfWord(h, []);
        assert h + [] == h;
      } else {
        var rest := FormatHex(bs[1..]);
        TokensOfWord(h, " " + rest);
        assert FormatHex(bs) == h + (" " + rest);
        assert Tokens(" " + rest) == Tokens(rest) by {
          assert (" " + rest)[1..] == rest;
        }
        TokensOfFormat(bs[1..]);
      }
    }
  }

  lemma Hex2Value(b: byte)
    ensures DigitsValue(Hex2(b)) == Some(b)
  {
    var h := Hex2(b);
    assert h[..1][..0] == [];
    assert h[..1] == [h[0]];
    assert DigitsValue(h[..1]) == Some(b / 16);
  }

  lemma {:induction false} ParseHex2s(bs: seq<byte>)
    ensures ParseTokens(Hex2s(bs)) == Ok(bs)
  {
    if bs != [] {
      var ts := Hex2s(bs);
      Hex2Value(bs[0]);
      assert ts[0] == Hex2(bs[0]) && ts[1..] == Hex2s(bs[1..]);
      ParseHex2s(bs[1..]);
      assert ParseTokens(ts) == Ok([bs[0]] + bs[1..]);
      assert [bs[0]] + bs[1..] == bs;
    }
  }

  /** Formatting two non-empty runs of bytes one after the other joins
      their texts with a single space. */
  lemma {:induction false} FormatHexAppend(x: seq<byte>, y: seq<byte>)
    requires x != [] && y != []
    ensures FormatHex(x + y) == FormatHex(x) + " " + FormatHex(y)
  {
    assert (x + y)[0] == x[0] && (x + y)[1..] == x[1..] + y;
    if |x| > 1 {
      FormatHexAppend(x[1..], y);
      var h, fx, fy := Hex2(x[0]), FormatHex(x[1..]), FormatHex(y);
      assert h + " " + (fx + " " + fy) == (h + " " + fx) + " " + fy;
    }
  }

  /** Parsing the formatted text gives the bytes back. */
  lemma HexRoundTrip(bs: seq<byte>)
    ensures HexToBytes(FormatHex(bs)) == Ok(bs)
  {
    TokensOfFormat(bs);
    ParseHex2s(bs);
  }

  /** The example program printed in the machine's documentation: 82
      two-digit hex tokens separated by single spaces. The text is written
      here four tokens at a time (`HELLO_TEXT_0` to `HELLO_TEXT_20`), two
      pieces to a line; joined with single spaces the pieces are the
      documented text. */
  const HELLO_HEX: string :=
    (HELLO_TEXT_0 + " " + HELLO_TEXT_1)
    + " " + (HELLO_TEXT_2 + " " + HELLO_TEXT_3)
    + " " + (HELLO_TEXT_4 + " " + HELLO_TEXT_5)
    + " " + (HELLO_TEXT_6 + " " + HELLO_TEXT_7)
    + " " + (HELLO_TEXT_8 + " " + HELLO_TEXT_9)
    + " " + (HELLO_TEXT_10 + " " + HELLO_TEXT_11)
    + " " + (HELLO_TEXT_12 + " " + HELLO_TEXT_13)
    + " " + (HELLO_TEXT_14 + " " + HELLO_TEXT_15)
    + " " + (HELLO_TEXT_16 + " " + HELLO_TEXT_17)
    + " " + (HELLO_TEXT_18 + " " + HELLO_TEXT_19)
    + " " + HELLO_TEXT_20

  /** The same program as bytes, eight to a line; the machine's
      properties are proved about this form. */
  const HELLO_PROGRAM: seq<byte> :=
    [0x50, 0x48, 0xC2, 0x02, 0xA8, 0x4D, 0x00, 0x00]
    + [0x00, 0x4F, 0x02, 0x50, 0x09, 0xC4, 0x02, 0x02]
    + [0xE1, 0x01, 0x4F, 0x02, 0xC1, 0x22, 0x1D, 0x00]
    + [0x00, 0x00, 0x48, 0x30, 0x02, 0x58, 0x03, 0x4F]
    + [0x02, 0xB0, 0x29, 0x00, 0x00, 0x00, 0x48, 0x31]
    + [0x02, 0x50, 0x0C, 0xC3, 0x02, 0xAA, 0x57, 0x48]
    + [0x02, 0xC1, 0x21, 0x3A, 0x00, 0x00, 0x00, 0x48]
    + [0x32, 0x02, 0x48, 0x77, 0x02, 0x48, 0x6F, 0x02]
    + [0x48, 0x72, 0x02, 0x48, 0x6C, 0x02, 0x48, 0x64]
    + [0x02, 0x48, 0x21, 0x02, 0x01, 0x65, 0x6F, 0x33]
    + [0x34, 0x2C]

  /** The groups of four that the text is written in, as bytes. */
  const HELLO_GROUP_0: seq<byte> := [0x50, 0x48, 0xC2, 0x02]
  const HELLO_TEXT_0: string := "50 48 C2 02"
  const HELLO_GROUP_1: seq<byte> := [0xA8, 0x4D, 0x00, 0x00]
  const HELLO_TEXT_1: string := "A8 4D 00 00"
  const HELLO_GROUP_2: seq<byte> := [0x00, 0x4F, 0x02, 0x50]
  const HELLO_TEXT_2: string := "00 4F 02 50"
  const HELLO_GROUP_3: seq<byte> := [0x09, 0xC4, 0x02, 0x02]
  const HELLO_TEXT_3: string := "09 C4 02 02"
  const HELLO_GROUP_4: seq<byte> := [0xE1, 0x01, 0x4F, 0x02]
  const HELLO_TEXT_4: string := "E1 01 4F 02"
  const HELLO_GROUP_5: seq<byte> := [0xC1, 0x22, 0x1D, 0x00]
  const HELLO_TEXT_5: string := "C1 22 1D 00"
  const HELLO_GROUP_6: seq<byte> := [0x00, 0x00, 0x48, 0x30]
  const HELLO_TEXT_6: string := "00 00 48 30"
  const HELLO_GROUP_7: seq<byte> := [0x02, 0x58, 0x03, 0x4F]
  const HELLO_TEXT_7: string := "02 58 03 4F"
  const HELLO_GROUP_8: seq<byte> := [0x02, 0xB0, 0x29, 0x00]
  const HELLO_TEXT_8: string := "02 B0 29 00"
  const HELLO_GROUP_9: seq<byte> := [0x00, 0x00, 0x48, 0x31]
  const HELLO_TEXT_9: string := "00 00 48 31"
  const HELLO_GROUP_10: seq<byte> := [0x02, 0x50, 0x0C, 0xC3]
  const HELLO_TEXT_10: string := "02 50 0C C3"
  const HELLO_GROUP_11: seq<byte> := [0x02, 0xAA, 0x57, 0x48]
  const HELLO_TEXT_11: string := "02 AA 57 48"
  const HELLO_GROUP_12: seq<byte> := [0x02, 0xC1, 0x21, 0x3A]
  const HELLO_TEXT_12: string := "02 C1 21 3A"
  const HELLO_GROUP_13: seq<byte> := [0x00, 0x00, 0x00, 0x48]
  const HELLO_TEXT_13: string := "00 00 00 48"
  const HELLO_GROUP_14: seq<byte> := [0x32, 0x02, 0x48, 0x77]
  const HELLO_TEXT_14: string := "32 02 48 77"
  const HELLO_GROUP_15: seq<byte> := [0x02, 0x48, 0x6F, 0x02]
  const HELLO_TEXT_15: string := "02 48 6F 02"
  const HELLO_GROUP_16: seq<byte> := [0x48, 0x72, 0x02, 0x48]
  const HELLO_TEXT_16: string := "48 72 02 48"
  const HELLO_GROUP_17: seq<byte> := [0x6C, 0x02, 0x48, 0x64]
  const HELLO_TEXT_17: string := "6C 02 48 64"
  const HELLO_GROUP_18: seq<byte> := [0x02, 0x48, 0x21, 0x02]
  const HELLO_TEXT_18: string := "02 48 21 02"
  const HELLO_GROUP_19: seq<byte> := [0x01, 0x65, 0x6F, 0x33]
  const HELLO_TEXT_19: string := "01 65 6F 33"
  const HELLO_GROUP_20: seq<byte> := [0x34, 0x2C]
  const HELLO_TEXT_20: string := "34 2C"

  lemma HelloGroupHex0()
    ensures FormatHex(HELLO_GROUP_0) == HELLO_TEXT_0
  {
  }

  lemma HelloGroupHex1()
    ensures FormatHex(HELLO_GROUP_1) == HELLO_TEXT_1
  {
  }

  lemma HelloGroupHex2()
    ensures FormatHex(HELLO_GROUP_2) == HELLO_TEXT_2
  {
  }

  lemma HelloGroupHex3()
    ensures FormatHex(HELLO_GROUP_3) == HELLO_TEXT_3
  {
  }

  lemma HelloGroupHex4()
    ensures FormatHex(HELLO_GROUP_4) == HELLO_TEXT_4
  {
  }

  lemma HelloGroupHex5()
    ensures FormatHex(HELLO_GROUP_5) == HELLO_TEXT_5
  {
  }

  lemma HelloGroupHex6()
    ensures FormatHex(HELLO_GROUP_6) == HELLO_TEXT_6
  {
  }

  lemma HelloGroupHex7()
    ensures FormatHex(HELLO_GROUP_7) == HELLO_TEXT_7
  {
  }

  lemma HelloGroupHex8()
    ensures FormatHex(HELLO_GROUP_8) == HELLO_TEXT_8
  {
  }

  lemma HelloGroupHex9()
    ensures FormatHex(HELLO_GROUP_9) == HELLO_TEXT_9
  {
  }

  lemma HelloGroupHex10()
    ensures FormatHex(HELLO_GROUP_10) == HELLO_TEXT_10
  {
  }

  lemma HelloGroupHex11()
    ensures FormatHex(HELLO_GROUP_11) == HELLO_TEXT_11
  {
  }

  lemma HelloGroupHex12()
    ensures FormatHex(HELLO_GROUP_12) == HELLO_TEXT_12
  {
  }

  lemma HelloGroupHex13()
    ensures FormatHex(HELLO_GROUP_13) == HELLO_TEXT_13
  {
  }

  lemma HelloGroupHex14()
    ensures FormatHex(HELLO_GROUP_14) == HELLO_TEXT_14
  {
  }

  lemma HelloGroupHex15()
    ensures FormatHex(HELLO_GROUP_15) == HELLO_TEXT_15
  {
  }

  lemma HelloGroupHex16()
    ensures FormatHex(HELLO_GROUP_16) == HELLO_TEXT_16
  {
  }

  lemma HelloGroupHex17()
    ensures FormatHex(HELLO_GROUP_17) == HELLO_TEXT_17
  {
  }

  lemma HelloGroupHex18()
    ensures FormatHex(HELLO_GROUP_18) == HELLO_TEXT_18
  {
  }

  lemma HelloGroupHex19()
    ensures FormatHex(HELLO_GROUP_19) == HELLO_TEXT_19
  {
  }

  lemma HelloGroupHex20()
    ensures FormatHex(HELLO_GROUP_20) == HELLO_TEXT_20
  {
  }

  /** The program's bytes, eight to a line, are the groups of four in order. */
  lemma HelloProgramGroups()
    ensures HELLO_PROGRAM
      == (HELLO_GROUP_0 + HELLO_GROUP_1)
      + (HELLO_GROUP_2 + HELLO_GROUP_3)
      + (HELLO_GROUP_4 + HELLO_GROUP_5)
      + (HELLO_GROUP_6 + HELLO_GROUP_7)
      + (HELLO_GROUP_8 + HELLO_GROUP_9)
      + (HELLO_GROUP_10 + HELLO_GROUP_11)
      + (HELLO_GROUP_12 + HELLO_GROUP_13)
      + (HELLO_GROUP_14 + HELLO_GROUP_15)
      + (HELLO_GROUP_16 + HELLO_GROUP_17)
      + (HELLO_GROUP_18 + HELLO_GROUP_19)
      + HELLO_GROUP_20
  {
    assert [0x50, 0x48, 0xC2, 0x02, 0xA8, 0x4D, 0x00, 0x00] == HELLO_GROUP_0 + HELLO_GROUP_1;
    assert [0x00, 0x4F, 0x02, 0x50, 0x09, 0xC4, 0x02, 0x02] == HELLO_GROUP_2 + HELLO_GROUP_3;
    assert [0xE1, 0x01, 0x4F, 0x02, 0xC1, 0x22, 0x1D, 0x00] == HELLO_GROUP_4 + HELLO_GROUP_5;
    assert [0x00, 0x00, 0x48, 0x30, 0x02, 0x58, 0x03, 0x4F] == HELLO_GROUP_6 + HELLO_GROUP_7;
    assert [0x02, 0xB0, 0x29, 0x00, 0x00, 0x00, 0x48, 0x31] == HELLO_GROUP_8 + HELLO_GROUP_9;
    assert [0x02, 0x50, 0x0C, 0xC3, 0x02, 0xAA, 0x57, 0x48] == HELLO_GROUP_10 + HELLO_GROUP_11;
    assert [0x02, 0xC1, 0x21, 0x3A, 0x00, 0x00, 0x00, 0x48] == HELLO_GROUP_12 + HELLO_GROUP_13;
    assert [0x32, 0x02, 0x48, 0x77, 0x02, 0x48, 0x6F, 0x02] == HELLO_GROUP_14 + HELLO_GROUP_15;
    assert [0x48, 0x72, 0x02, 0x48, 0x6C, 0x02, 0x48, 0x64] == HELLO_GROUP_16 + HELLO_GROUP_17;
    assert [0x02, 0x48, 0x21, 0x02, 0x01, 0x65, 0x6F, 0x33] == HELLO_GROUP_18 + HELLO_GROUP_19;
    assert [0x34, 0x2C] == HELLO_GROUP_20;
  }

  /** The documented text is the program's bytes formatted as hex, so
      `hex_to_bytes(HELLO_HEX)` gives back exactly `HELLO_PROGRAM`. */
  lemma HelloHexFormat()
    ensures FormatHex(HELLO_PROGRAM) == HELLO_HEX
  {
    HelloProgramGroups();
    HelloGroupHex0();
    HelloGroupHex1();
    FormatHexAppend(HELLO_GROUP_0, HELLO_GROUP_1);
    var p, t := HELLO_GROUP_0 + HELLO_GROUP_1, HELLO_TEXT_0 + " " + HELLO_TEXT_1;
    HelloGroupHex2();
    HelloGroupHex3();
    FormatHexAppend(HELLO_GROUP_2, HELLO_GROUP_3);
    FormatHexAppend(p, HELLO_GROUP_2 + HELLO_GROUP_3);
    p, t := p + (HELLO_GROUP_2 + HELLO_GROUP_3), t + " " + (HELLO_TEXT_2 + " " + HELLO_TEXT_3);
    HelloGroupHex4();
    HelloGroupHex5();
    FormatHexAppend(HELLO_GROUP_4, HELLO_GROUP_5);
    FormatHexAppend(p, HELLO_GROUP_4 + HELLO_GROUP_5);
    p, t := p + (HELLO_GROUP_4 + HELLO_GROUP_5), t + " " + (HELLO_TEXT_4 + " " + HELLO_TEXT_5);
    HelloGroupHex6();
    HelloGroupHex7();
    FormatHexAppend(HELLO_GROUP_6, HELLO_GROUP_7);
    FormatHexAppend(p, HELLO_GROUP_6 + HELLO_GROUP_7);
    p, t := p + (HELLO_GROUP_6 + HELLO_GROUP_7), t + " " + (HELLO_TEXT_6 + " " + HELLO_TEXT_7);
    HelloGroupHex8();
    HelloGroupHex9();
    FormatHexAppend(HELLO_GROUP_8, HELLO_GROUP_9);
    FormatHexAppend(p, HELLO_GROUP_8 + HELLO_GROUP_9);
    p, t := p + (HELLO_GROUP_8 + HELLO_GROUP_9), t + " " + (HELLO_TEXT_8 + " " + HELLO_TEXT_9);
    HelloGroupHex10();
    HelloGroupHex11();
    FormatHexAppend(HELLO_GROUP_10, HELLO_GROUP_11);
    FormatHexAppend(p, HELLO_GROUP_10 + HELLO_GROUP_11);
    p, t := p + (HELLO_GROUP_10 + HELLO_GROUP_11), t + " " + (HELLO_TEXT_10 + " " + HELLO_TEXT_11);
    HelloGroupHex12();
    HelloGroupHex13();
    FormatHexAppend(HELLO_GROUP_12, HELLO_GROUP_13);
    FormatHexAppend(p, HELLO_GROUP_12 + HELLO_GROUP_13);
    p, t := p + (HELLO_GROUP_12 + HELLO_GROUP_13), t + " " + (HELLO_TEXT_12 + " " + HELLO_TEXT_13);
    HelloGroupHex14();
    HelloGroupHex15();
    FormatHexAppend(HELLO_GROUP_14, HELLO_GROUP_15);
    FormatHexAppend(p, HELLO_GROUP_14 + HELLO_GROUP_15);
    p, t := p + (HELLO_GROUP_14 + HELLO_GROUP_15), t + " " + (HELLO_TEXT_14 + " " + HELLO_TEXT_15);
    HelloGroupHex16();
    HelloGroupHex17();
    FormatHexAppend(HELLO_GROUP_16, HELLO_GROUP_17);
    FormatHexAppend(p, HELLO_GROUP_16 + HELLO_GROUP_17);
    p, t := p + (HELLO_GROUP_16 + HELLO_GROUP_17), t + " " + (HELLO_TEXT_16 + " " + HELLO_TEXT_17);
    HelloGroupHex18();
    HelloGroupHex19();
    FormatHexAppend(HELLO_GROUP_18, HELLO_GROUP_19);
    FormatHexAppend(p, HELLO_GROUP_18 + HELLO_GROUP_19);
    p, t := p + (HELLO_GROUP_18 + HELLO_GROUP_19), t + " " + (HELLO_TEXT_18 + " " + HELLO_TEXT_19);
    HelloGroupHex20();
    FormatHexAppend(p, HELLO_GROUP_20);
  }

  lemma HelloHexBytes()
    ensures HexToBytes(HELLO_HEX) == Ok(HELLO_PROGRAM)
  {
    HelloHexFormat();
    HexRoundTrip(HELLO_PROGRAM);
  }

  // ---------------------------------------------------------------------
  // Payload block of a layer's output text
  // ---------------------------------------------------------------------

  const PAYLOAD_MARKER: string := "==[ Payload ]=="
  const ASCII85_MARKER: string := "<~"
  const ASCII85_MARKER_END: string := "~>"

  predicate OccursAt(text: string, pat: string, i: int)
  {
    0 <= i && i + |pat| <= |text| && forall j :: 0 <= j < |pat| ==> text[i + j] == pat[j]
  }

  /** `text.find(pat, from)`: the first occurrence at or after `from`, or -1. */
  function Find(text: string, pat: string, from: nat): (r: int)
    ensures r == -1 || (from <= r && OccursAt(text, pat, r))
    decreases |text| - from
  {
    if from + |pat| > |text| then -1
    else if OccursAt(text, pat, from) then from
    else Find(text, pat, from + 1)
  }

  /** `Find` returns the first occurrence, and -1 only when there is none. */
  lemma {:induction false} FindFirst(text: string, pat: string, from: nat)
    ensures Find(text, pat, from) == -1 ==> forall i :: from <= i ==> !OccursAt(text, pat, i)
    ensures forall i :: from <= i < Find(text, pat, from) ==> !OccursAt(text, pat, i)
    decreases |text| - from
  {
    if from + |pat| <= |text| && !OccursAt(text, pat, from) {
      FindFirst(text, pat, from + 1);
    }
  }

  /** Why a payload block could not be found. */
  datatype PayloadError = NoPayloadMarker | NoStartMarker | NoEndMarker

  /** The marker search of `get_payload_from_layer_output`, for any three
      markers: after the first `marker`, the slice from the first `open`
      through the first `close` found from that same position. */
  function ExtractBlock(text: string, marker: string, open: string, close: string): Result<string, PayloadError>
  {
    var idx := Find(text, marker, 0);
    if idx == -1 then Err(NoPayloadMarker)
    else
      var section := text[idx + |marker|..];
      var start := Find(section, open, 0);
      if start == -1 then Err(NoStartMarker)
      else
        var end := Find(section, close, start);
        if end == -1 then Err(NoEndMarker)
        else Ok(section[start..end + |close|])
  }

  /** `get_payload_from_layer_output` on the text of the file. */
  function GetPayload(text: string): Result<string, PayloadError>
  {
    ExtractBlock(text, PAYLOAD_MARKER, ASCII85_MARKER, ASCII85_MARKER_END)
  }

  lemma OccursInSuffix(text: string, off: nat, pat: string, i: int)
    requires off <= |text|
    ensures OccursAt(text[off..], pat, i) <==> i >= 0 && OccursAt(text, pat, i + off)
  {
  }

  lemma OccursInSlice(text: string, a: nat, b: nat, pat: string, i: nat)
    requires a <= b <= |text| && i + |pat| <= b - a
    ensures OccursAt(text[a..b], pat, i) <==> OccursAt(text, pat, a + i)
  {
  }

  /** The markers, in order, somewhere in the text: the payload marker,
      later an opening marker, and from there on a closing marker. */
  ghost predicate HasBlock(text: string, marker: string, open: string, close: string)
  {
    exists m, s, e :: OccursAt(text, marker, m) && m + |marker| <= s && s <= e
      && OccursAt(text, open, s) && OccursAt(text, close, e)
  }

  lemma NoMarkerIff(text: string, marker: string, open: string, close: string)
    ensures ExtractBlock(text, marker, open, close) == Err(NoPayloadMarker)
        <==> forall m :: !OccursAt(text, marker, m)
  {
    FindFirst(text, marker, 0);
  }

  lemma NoStartIff(text: string, marker: string, open: string, close: string)
    ensures ExtractBlock(text, marker, open, close) == Err(NoStartMarker)
        <==> (exists m :: OccursAt(text, marker, m))
             && forall m, s :: OccursAt(text, marker, m) && OccursAt(text, open, s) ==> s < m + |marker|
  {
    var idx := Find(text, marker, 0);
    FindFirst(text, marker, 0);
    if idx != -1 {
      var off := idx + |marker|;
      var section := text[off..];
      var start := Find(section, open, 0);
      FindFirst(section, open, 0);
      if start == -1 {
        forall m, s | OccursAt(text, marker, m) && OccursAt(text, open, s)
          ensures s < m + |marker|
        {
          if s >= m + |marker| {
            OccursInSuffix(text, off, open, s - off);
          }
        }
      } else {
        OccursInSuffix(text, off, open, start);
      }
    }
  }

  lemma BlockFoundIff(text: string, marker: string, open: string, close: string)
    ensures ExtractBlock(text, marker, open, close).Ok? <==> HasBlock(text, marker, open, close)
  {
    var idx := Find(text, marker, 0);
    FindFirst(text, marker, 0);
    if idx != -1 {
      var off := idx + |marker|;
      var section := text[off..];
      var start := Find(section, open, 0);
      FindFirst(section, open, 0);
      var end := if start == -1 then -1 else Find(section, close, start);
      if end != -1 {
        OccursInSuffix(text, off, open, start);
        OccursInSuffix(text, off, close, end);
        assert OccursAt(text, close, end + off);
      } else {
        forall m, s, e | OccursAt(text, marker, m) && m + |marker| <= s && s <= e
            && OccursAt(text, open, s) && OccursAt(text, close, e)
          ensures false
        {
          OccursInSuffix(text, off, open, s - off);
          OccursInSuffix(text, off, close, e - off);
          if start != -1 {
            FindFirst(section, close, start);
          }
        }
      }
    }
  }

  /** A block is found exactly when the three markers occur in order, and
      the errors name the first marker that is missing. */
  lemma ExtractBlockFinds(text: string, marker: string, open: string, close: string)
    ensures ExtractBlock(text, marker, open, close) == Err(NoPayloadMarker)
        <==> forall m :: !OccursAt(text, marker, m)
    ensures ExtractBlock(text, marker, open, close).Ok? <==> HasBlock(text, marker, open, close)
    ensures ExtractBlock(text, marker, open, close) == Err(NoStartMarker)
        <==> (exists m :: OccursAt(text, marker, m))
             && forall m, s :: OccursAt(text, marker, m) && OccursAt(text, open, s) ==> s < m + |marker|
  {
    NoMarkerIff(text, marker, open, close);
    BlockFoundIff(text, marker, open, close);
    NoStartIff(text, marker, open, close);
  }

  /** A found block ends with the closing marker, which occurs nowhere
      earlier in it, and it starts with the opening marker when that fits. */
  lemma ExtractBlockShape(text: string, marker: string, open: string, close: string)
    requires ExtractBlock(text, marker, open, close).Ok?
    ensures var p := ExtractBlock(text, marker, open, close).value;
      |close| <= |p| && OccursAt(p, close, |p| - |close|)
      && (|open| <= |p| ==> OccursAt(p, open, 0))
      && forall i :: 0 <= i < |p| - |close| ==> !OccursAt(p, close, i)
  {
    var idx := Find(text, marker, 0);
    var section := text[idx + |marker|..];
    var start := Find(section, open, 0);
    var end := Find(section, close, start);
    var stop := end + |close|;
    var p := section[start..stop];
    OccursInSlice(section, start, stop, close, end - start);
    if |open| <= |p| {
      OccursInSlice(section, start, stop, open, 0);
    }
    FindFirst(section, close, start);
    forall i | 0 <= i < |p| - |close|
      ensures !OccursAt(p, close, i)
    {
      OccursInSlice(section, start, stop, close, i);
    }
  }

  /** The block found after the payload marker. */
  lemma GetPayloadShape(text: string)
    requires GetPayload(text).Ok?
    ensures var p := GetPayload(text).value;
      3 <= |p| && p[..2] == ASCII85_MARKER && p[|p| - 2..] == ASCII85_MARKER_END
  {
    ExtractBlockShape(text, PAYLOAD_MARKER, ASCII85_MARKER, ASCII85_MARKER_END);
    var p := GetPayload(text).value;
    assert OccursAt(p, ASCII85_MARKER, 0) && OccursAt(p, ASCII85_MARKER_END, |p| - 2);
    assert p[0] == ASCII85_MARKER[0] != ASCII85_MARKER_END[0];
  }

  /** The closing search starts at the opening marker itself, so the two
      markers may share their `~`. */
  lemma SharedTilde()
    ensures GetPayload("==[ Payload ]==<~>") == Ok("<~>")
  {
    var text := "==[ Payload ]==<~>";
    assert OccursAt(text, PAYLOAD_MARKER, 0);
    var section := text[15..];
    assert OccursAt(section, ASCII85_MARKER, 0);
    assert !OccursAt(section, ASCII85_MARKER_END, 0) by {
      assert section[0] != ASCII85_MARKER_END[0];
    }
    assert OccursAt(section, ASCII85_MARKER_END, 1);
    assert section[0..3] == "<~>";
  }
}
