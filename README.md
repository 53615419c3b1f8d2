# Decoder layers and the Tomtel Core i69 machine, in Dafny

This project models the decoding pipeline of `climate-first-challenge`. A
hidden message is recovered by peeling layers of obfuscation off a blob of
data. The last layer is a program for the Tomtel Core i69, a small
register machine whose output is the message.

Modelled here:

- **The Tomtel Core i69 machine** (`tomtel_vm.dfy`).
  - The pure specification is a `State` value, one `Step`, and `RunFor`, which repeats `Step` under a step budget.
  - The class `Machine` is the in-place interpreter. It has a mutable memory `array`, register lists that are overwritten, and an output list that is appended to. Its `Run` loop is proved to compute exactly `RunFor`.
  - The registers are typed: the 8-bit registers hold `byte`s and the 32-bit registers hold `u32`s. Every state therefore keeps its registers in range.
  - `tomtel_hello.dfy` proves that the example program of the machine's documentation prints `Hello, world!` and halts.
- **The shared helpers** (`helpers.dfy`):
  - the bounds-checked byte and little-endian word accessors;
  - the Internet checksum of RFC 1071;
  - the hex parser for machine programs;
  - the marker search that cuts the `<~ … ~>` payload block out of a layer's output text.
- **Layer 1** (`layer1_flip_rotate.dfy`, `layer1.dfy`): XOR with 0x55, then rotate right by one bit.
- **Layer 2** (`layer2_parity.dfy`, `layer2.dfy`): the odd-parity filter and the repacking of 7-bit fields into bytes through a FIFO bit buffer.
- **Layer 3** (`layer3_xor_dec.dfy`):
  - the English score;
  - the column-by-column search for a repeating XOR key;
  - the decryption and the flip of bit 0.
- **Layer 4** (`layer4_packets.dfy`):
  - the scan of a raw IPv4/UDP stream (section 3.1 of RFC 791);
  - the header checksum;
  - the address and port filter;
  - the UDP checksum over the pseudo-header of RFC 768.
- **The combined module** `src/layers.py` (`layers.dfy`): its copies of the payload search and of layers 1 to 3.

Each copy of a layer is stated against the same specification functions as
the copy it repeats. The copies therefore provably agree on every input, for
example the two `check_parity` copies, whose drain loops sit in different
places.

Python's shifts and masks on non-negative integers are written with their
arithmetic meaning: `>> 1` is `/ 2`, `& 1` is `% 2`, `& 0xFF` is `% 256`,
and `<< 7` is `* 128`. `|` and `^` are the bitwise functions `BitOr` and
`Xor` of `bytes.dfy`. Errors that the source raises are `Err` results or
`Faulted` outcomes.

## Model

| member | source | states |
|---|---|---|
| Helpers.ReadU8 | src/helpers.py:66-67 | `read_u8`: the byte at the address when it lies inside memory, 0 for any other address; `ReadAfterWrite` relates it to `write_u8` |
| Helpers.Stored | src/helpers.py:70-72 | the buffer after `write_u8` keeps its length, holds `v mod 256` at an in-range address, and is unchanged everywhere else |
| Helpers.WriteU8 | src/helpers.py:70-72 | the in-place store leaves the array equal to `Stored` of its old contents |
| Helpers.ReadAfterWrite | src/helpers.py:66-72 | `read_u8` after `write_u8` sees the stored byte at that address when it is in range, and the old byte (or 0) everywhere else |
| Helpers.ReadU32Le | src/helpers.py:75-78 | `read_u32_le`: 0 when the four bytes at the address do not all lie inside memory, otherwise those bytes read little-endian; `ReadEncodedU32` proves it inverts the 4-byte encoding |
| Helpers.ReadEncodedU32 | src/helpers.py:75-78 | `read_u32_le` reads back any 32-bit word stored little-endian, wherever it sits in the buffer |
| Helpers.Padded | src/helpers.py:51-52 | odd-length data gets exactly one zero byte appended; the result has even length and extends the data |
| Helpers.FoldIsOnesValue | src/helpers.py:56-57 | the end-around-carry loop ends below 2^16 with the ones'-complement value of the sum, which is zero only for a zero sum |
| Helpers.ChecksumOf | src/helpers.py:49-58 | `checksum` as a value: the 16-bit complement of the carry-folded sum of the padded big-endian words; `Checksum` computes it and `ChecksumIsComplement` and `ChecksumVerifies` state its meaning |
| Helpers.Checksum | src/helpers.py:49-58 | the padding, summing and folding loops compute `ChecksumOf` |
| Helpers.ChecksumIsComplement | src/helpers.py:49-58 | the checksum lies in 0..0xFFFF and is 0xFFFF minus the ones'-complement sum of the padded big-endian words |
| Helpers.ChecksumOddPad | src/helpers.py:51-52 | for odd-length data, appending the zero pad byte by hand does not change the checksum |
| Helpers.ChecksumVerifies | src/helpers.py:49-58 | with the checksum stored after even-length data, the checksum of the whole is 0 (the receiver's check of RFC 1071) |
| Helpers.WordLen | src/helpers.py:83 | the length of the leading run of non-separators, which is followed by a separator or by the end of the string |
| Helpers.Tokens | src/helpers.py:83 | every token of `split()` is non-empty and contains no separator |
| Helpers.TokensCover | src/helpers.py:83 | the tokens of `split()` joined together are exactly the characters of the string that are not separators, in order |
| Helpers.FirstToken | src/helpers.py:83 | the first token follows a run of separators at the start of the string |
| Helpers.TokensSeparated | src/helpers.py:83 | any two consecutive tokens occur in the string in order, with a non-empty run of separators (and nothing else) between them |
| Helpers.ParseTokensOk | src/helpers.py:83 | parsing succeeds iff every token is hex for a value below 256, and then gives one byte per token, equal to that token's value |
| Helpers.HexToBytes | src/helpers.py:81-83 | `hex_to_bytes`: the tokens of `split()` parsed in order, failing at the first token that is not a hex byte; `HexToBytesTokens` and `HexRoundTrip` state its meaning |
| Helpers.HexToBytesTokens | src/helpers.py:81-83 | `hex_to_bytes` yields one byte per whitespace-separated token, the token read as hex, and fails iff some token is not a hex byte |
| Helpers.HexRoundTrip | src/helpers.py:81-83 | parsing bytes written as space-separated two-digit hex gives the bytes back |
| Helpers.FormatHexAppend | src/helpers.py:86-91 | hex text of a concatenation is the two texts joined by one space |
| Helpers.HelloHexFormat | src/helpers.py:86-91 | `HELLO_HEX` is the example program's bytes written as space-separated two-digit hex |
| Helpers.HelloHexBytes | src/helpers.py:81-91 | `hex_to_bytes(HELLO_HEX)` succeeds with exactly the example program's 82 bytes |
| Helpers.Find | src/helpers.py:33-42 | `str.find` returns -1 or a position at or after the start where the pattern occurs |
| Helpers.FindFirst | src/helpers.py:33-42 | `str.find` returns the first occurrence, and -1 only when there is none |
| Helpers.ExtractBlockFinds | src/helpers.py:32-46 | the error is "no payload marker" iff the marker never occurs, and "no `<~`" iff no `<~` starts after the first marker; a block is found iff the three markers occur in order |
| Helpers.ExtractBlockShape | src/helpers.py:37-46 | a found block ends with the closing marker, which occurs nowhere earlier in it, and starts with the opening marker |
| Helpers.GetPayloadShape | src/helpers.py:32-46 | the payload block starts with `<~`, ends with `~>` and is at least 3 characters long |
| Helpers.GetPayload | src/helpers.py:24-46 | `get_payload_from_layer_output` on the file's text: the block from the first `<~` after the payload marker to the first `~>` from there; `ExtractBlockFinds`, `ExtractBlockShape` and `GetPayloadShape` state its meaning |
| Helpers.SharedTilde | src/helpers.py:42-46 | the search for `~>` starts at the `<~` itself, so the text `==[ Payload ]==<~>` yields the block `<~>` |
| TomtelVm.Init | src/layers/layer6_tomtel_vm.py:14-22 | memory is the bytecode, output is empty, and every register is zero |
| TomtelVm.Decode | src/layers/layer6_tomtel_vm.py:66-145 | the instruction an opcode names, tested in the source's order: the eight fixed opcodes, then MV/MVI for top bits 01 and MV32/MVI32 for top bits 10 (source 0 meaning an immediate), anything else unknown; `FaultIff` states which bytes are unknown |
| TomtelVm.Exec | src/layers/layer6_tomtel_vm.py:66-143 | the effect of each decoded instruction on the state; `HaltIff`, `OutAppends`, `CmpSetsFlag`, `AddSubWrap`, `XorStep`, `AptrWrap`, `JumpIff`, `Move8Step`, `Move32ToPc` and `Move32Elsewhere` state it instruction by instruction, and `FaultIff` the unknown opcodes |
| TomtelVm.Step | src/layers/layer6_tomtel_vm.py:60-145 | one fetch-decode-execute cycle never changes the length of memory |
| TomtelVm.StopIff | src/layers/layer6_tomtel_vm.py:61-131 | a step ends the run quietly iff pc is outside memory, or APTR/MVI lacks its operand byte, or JEZ/JNZ/MVI32 lacks its four operand bytes |
| TomtelVm.HaltIff | src/layers/layer6_tomtel_vm.py:66-67 | a step halts iff the byte at pc is 0x01 |
| TomtelVm.FaultIff | src/layers/layer6_tomtel_vm.py:66-145 | the error is raised iff the byte at pc has top bits 00 and is not 0x01, 0x02, 0x21 or 0x22, or has top bits 11 and is not 0xC1..0xC4 or 0xE1; the error names that byte and pc |
| TomtelVm.OutAppends | src/layers/layer6_tomtel_vm.py:68-71 | only OUT changes the output, and it appends exactly register a |
| TomtelVm.CmpSetsFlag | src/layers/layer6_tomtel_vm.py:72-75 | CMP sets f to 1 iff a ≠ b and to 0 iff a = b, moves pc on by 1, and changes nothing else: a..e, la..ptr, memory and output are kept |
| TomtelVm.AddSubWrap | src/layers/layer6_tomtel_vm.py:76-83 | ADD gives a+b or a+b−256, SUB gives a−b or a−b+256, and pc moves on by 1; nothing but a and pc changes |
| TomtelVm.AddThenSub | src/layers/layer6_tomtel_vm.py:76-83 | ADD followed by SUB restores register a |
| TomtelVm.XorStep | src/layers/layer6_tomtel_vm.py:84-87 | XOR sets a to a XOR b and moves pc on by 1; nothing but a and pc changes |
| TomtelVm.XorTwice | src/layers/layer6_tomtel_vm.py:84-87 | XOR applied twice restores register a |
| TomtelVm.AptrWrap | src/layers/layer6_tomtel_vm.py:88-94 | APTR adds its operand to ptr modulo 2^32 and moves pc on by 2; the 8-bit registers, la..ld, memory and output are unchanged |
| TomtelVm.PtrWrapExample | src/layers/layer6_tomtel_vm.py:88-94 | adding 2 to ptr = 0xFFFFFFFF wraps round to 1 |
| TomtelVm.JumpIff | src/layers/layer6_tomtel_vm.py:95-112 | JEZ jumps to its little-endian operand iff f = 0, JNZ iff f ≠ 0, and otherwise pc moves on by 5; nothing but pc changes |
| TomtelVm.Move32ToPc | src/layers/layer6_tomtel_vm.py:126-143 | a 32-bit move into id 6 sets pc to the moved value and does not advance it; the 8-bit registers, la..ptr, memory and output are unchanged |
| TomtelVm.Move32Elsewhere | src/layers/layer6_tomtel_vm.py:126-143 | any other 32-bit move stores the value in its destination, leaves the other 32-bit registers, the 8-bit registers, memory and output unchanged, and moves pc on by 5 (immediate) or 1 (register) |
| TomtelVm.Move8Step | src/layers/layer6_tomtel_vm.py:113-125 | MV and MVI write the source register (id 7: the memory byte at the cursor) or the operand byte into the destination through `write8`, and move pc on by 1 or 2: a register destination changes only that register, id 7 only the memory byte at the cursor, id 0 nothing; the 32-bit registers and the output are unchanged |
| TomtelVm.PseudoRegisterStore | src/layers/layer6_tomtel_vm.py:33-48 | a store through id 7 changes only the memory byte at (ptr + c) mod 2^32, and only when it is in range; registers, output and memory length are unchanged, and reading id 7 back gives the stored byte |
| TomtelVm.IgnoredWrites | src/layers/layer6_tomtel_vm.py:43-58 | writes to 8-bit id 0 and to 32-bit ids outside 1..6 change nothing |
| TomtelVm.RunFor | src/layers/layer6_tomtel_vm.py:60-147 | the dispatch loop for at most `fuel` cycles; `IterateFuelMonotone` and `RunExtendsOutput` state its properties, and `Machine.Run` computes it |
| TomtelVm.Execute | src/layers/layer6_tomtel_vm.py:10-147 | `run_tomtel_vm`: `RunFor` from the initial state of the bytecode; `RunTomtelVm` computes it and `HelloWorld` runs it on the example |
| TomtelVm.IterateNext | src/layers/layer6_tomtel_vm.py:60-71 | after a step that continues, the run goes on from the new state with one step less |
| TomtelVm.IterateFuelMonotone | src/layers/layer6_tomtel_vm.py:60-147 | once a run has ended within its budget, a larger budget ends it the same way |
| TomtelVm.IterateExtendsOutput | src/layers/layer6_tomtel_vm.py:60-147 | if no step shrinks the output or resizes memory, a whole run returns an extension of the output it started with |
| TomtelVm.RunExtendsOutput | src/layers/layer6_tomtel_vm.py:60-147 | the machine's output only grows over a run, and memory keeps its length |
| TomtelVm.EmptyProgram | src/layers/layer6_tomtel_vm.py:60-63 | an empty program stops at once with empty output |
| TomtelVm.UnknownOpcodeExample | src/layers/layer6_tomtel_vm.py:145 | the lone byte 0xFF raises the unknown-opcode error for 0xFF at pc 0 |
| TomtelVm.RunExec | src/layers/layer6_tomtel_vm.py:60-143 | a run whose first instruction executes continues from the executed state |
| TomtelVm.Machine.constructor | src/layers/layer6_tomtel_vm.py:14-22 | a fresh memory array holding the bytecode, zeroed registers and empty output, that is `Init(bytecode)` |
| TomtelVm.Machine.SetPc | src/layers/layer6_tomtel_vm.py:27-28 | pc becomes the value masked to 32 bits; nothing else changes |
| TomtelVm.Machine.Read8 | src/layers/layer6_tomtel_vm.py:36-41 | registers 1..6, the memory byte at the cursor for id 7 (0 outside memory), and 0 for any other id |
| TomtelVm.Machine.Write8 | src/layers/layer6_tomtel_vm.py:43-48 | the new state is `With8`: a register store or a memory store at the cursor, masked to 8 bits |
| TomtelVm.Machine.Read32 | src/layers/layer6_tomtel_vm.py:50-53 | registers 1..6, and 0 for any other id |
| TomtelVm.Machine.Write32 | src/layers/layer6_tomtel_vm.py:55-58 | the new state is `With32`: a store masked to 32 bits into ids 1..6, and nothing for other ids |
| TomtelVm.Machine.Cycle | src/layers/layer6_tomtel_vm.py:60-145 | one pass of the loop body, in the source's order of tests, signals what `Step` decides and leaves the state `Step` gives (unchanged when the loop is left) |
| TomtelVm.Machine.OneByteOp | src/layers/layer6_tomtel_vm.py:68-87 | OUT, CMP, ADD, SUB and XOR leave exactly the state `Step` gives |
| TomtelVm.Machine.AptrOrJump | src/layers/layer6_tomtel_vm.py:88-112 | APTR, JEZ and JNZ stop when the operand is cut off, and otherwise leave the state `Step` gives |
| TomtelVm.Machine.Move8 | src/layers/layer6_tomtel_vm.py:113-125 | MV and MVI stop when the operand is cut off, and otherwise leave the state `Step` gives |
| TomtelVm.Machine.Move32 | src/layers/layer6_tomtel_vm.py:126-143 | MV32 and MVI32 stop when the operand is cut off, and otherwise leave the state `Step` gives, with pc not advanced after a move into pc |
| TomtelVm.Machine.Run | src/layers/layer6_tomtel_vm.py:60-147 | the dispatch loop returns exactly `RunFor` of the starting state |
| TomtelVm.RunTomtelVm | src/layers/layer6_tomtel_vm.py:10-147 | `run_tomtel_vm` returns exactly `Execute(bytecode, fuel)` |
| TomtelHello.GreetingIsAscii | tests/test_vm.py:14-17 | the expected output bytes are the ASCII codes of `Hello, world!` |
| TomtelHello.HelloProgramCode | src/helpers.py:86-91 | the 82 bytes of the example program have the instruction layout the run lemmas step through (`HelloCode`) |
| TomtelHello.HelloRuns | tests/test_vm.py:14-17 | any memory holding the program's bytes halts with output `Hello, world!` once it has its 40 steps |
| TomtelHello.HelloWorld | tests/test_vm.py:14-17 | `hex_to_bytes(HELLO_HEX)` gives the program's bytes, and running them halts with exactly `Hello, world!` as output |
| Layer1FlipRotate.FlipRotate | src/layers/layer1_flip_rotate.py:9-20 | the loop body on one byte: XOR with 0x55, then rotate right by one; `FlipRotateInverse` gives its inverse |
| Layer1FlipRotate.RotateRight | src/layers/layer1_flip_rotate.py:15-19 | the low bit of the flipped byte becomes bit 7 and its other bits move down one place |
| Layer1FlipRotate.FlipAndRotate | src/layers/layer1_flip_rotate.py:7-21 | the output has the input's length, and output byte i is the transform of input byte i alone |
| Layer1FlipRotate.RotateRoundTrip | tests/test_layer1.py:12-18 | rotate left and rotate right undo each other |
| Layer1FlipRotate.FlipRotateInverse | tests/test_layer1.py:12-26 | rotate left then XOR 0x55 undoes the per-byte transform, and the other way round |
| Layer1FlipRotate.UnflipAll | tests/test_layer1.py:21-26 | inverting every output byte recovers the input |
| Layer1FlipRotate.MaskMapsToZero | tests/test_layer1.py:34-36 | 0x55 maps to 0x00 |
| Layer1.FlipAndRotate | src/layers/layer1.py:11-17 | the copy with the one-expression rotation produces the same bytes as the layer 1 transform, so the two copies agree on every input |
| Layer1.ByteMapBijective | src/layers/layer1.py:14-15 | the per-byte map is one-to-one and onto 0..255 |
| Layer2Parity.BitsValueBound | src/layers/layer2_parity.py:33-35 | n bits packed MSB-first give a value below 2^n |
| Layer2Parity.BitsOfValue | src/layers/layer2_parity.py:27-35 | the low n bits of a value, listed MSB-first as the data bits are appended, pack back to the value modulo 2^n |
| Layer2Parity.FieldValue | src/layers/layer2_parity.py:14-28 | the bits a valid byte appends pack back to `byte >> 1` |
| Layer2Parity.ValidBits | src/layers/layer2_parity.py:12-28 | the data bits the bytes with correct parity append, in input order, the others contributing nothing; `ValidBitsLength`, `ValidBitsAppend` and `InvalidByteIgnored` state its properties |
| Layer2Parity.ValidBitsLength | src/layers/layer2_parity.py:12-28 | the bits of the valid bytes number 7 per valid byte |
| Layer2Parity.ValidBitsAppend | src/layers/layer2_parity.py:12-28 | the bits of a concatenation are the bits of its parts, in order |
| Layer2Parity.InvalidByteIgnored | src/layers/layer2_parity.py:22-28 | a byte with wrong parity contributes nothing, wherever it is inserted |
| Layer2Parity.Repack | src/layers/layer2_parity.py:30-36 | one output byte per complete group of 8 bits, the k-th byte being bits 8k..8k+7 packed MSB-first |
| Layer2Parity.RepackAppend | src/layers/layer2_parity.py:30-36 | repacking after a whole number of bytes' worth of bits continues the earlier output |
| Layer2Parity.PackByte | src/layers/layer2_parity.py:33-36 | eight `pop(0)`s shifted into place give the first 8 bits packed MSB-first, and the buffer loses exactly them |
| Layer2Parity.PushField | src/layers/layer2_parity.py:27-28 | the buffer gains the byte's 7 data bits, MSB first |
| Layer2Parity.CheckParity | src/layers/layer2_parity.py:7-38 | the output is the valid bytes' data bits repacked, the buffer holding fewer than 8 bits after each byte |
| Layer2Parity.OutputLength | src/layers/layer2_parity.py:7-38 | the output has ⌊7v/8⌋ bytes for v valid bytes |
| Layer2Parity.UniformRepack | src/layers/layer2_parity.py:30-36 | a run of equal bits repacks to bytes that are all the same |
| Layer2Parity.EmptyInput | tests/test_layer2.py:21-23 | empty input gives empty output |
| Layer2Parity.EightZeros | tests/test_layer2.py:26-32 | eight 0x00 give seven 0x00 |
| Layer2Parity.OnesField | tests/test_layer2.py:35-41 | 0xFF has correct parity and seven one bits of data |
| Layer2Parity.EightOnes | tests/test_layer2.py:35-41 | eight 0xFF give seven 0xFF |
| Layer2Parity.InvalidAmongZeros | tests/test_layer2.py:44-51 | an invalid byte among eight valid zeros is dropped: seven 0x00 |
| Layer2.CheckParity | src/layers/layer2.py:11-30 | with the drain inside the valid branch, the output is still the valid bytes' data bits repacked, the same as `Layer2Parity.CheckParity` |
| Layer3XorDec.ByteScore | src/layers/layer3_xor_dec.py:11-20 | a byte scores 5 iff it is a space, and at least 0 iff it is printable (32..126); every score other than 5 is at most 3 |
| Layer3XorDec.Score | src/layers/layer3_xor_dec.py:8-21 | `score_english` as a value: the sum of the bytes' scores; `ScoreBounds` and `ScoreTopOnlySpaces` state its range |
| Layer3XorDec.ScoreEnglish | src/layers/layer3_xor_dec.py:8-21 | the loop's total is the sum of the bytes' scores |
| Layer3XorDec.ScoreBounds | src/layers/layer3_xor_dec.py:8-21 | a string of n bytes scores between −10n and 5n |
| Layer3XorDec.ScoreTopOnlySpaces | src/layers/layer3_xor_dec.py:8-21 | a string reaches 5 points a byte iff it is all spaces |
| Layer3XorDec.Column | src/layers/layer3_xor_dec.py:26 | `payload[i::n]` holds exactly the bytes at positions i, i+n, i+2n, … inside the payload |
| Layer3XorDec.Decode | src/layers/layer3_xor_dec.py:35 | the decoded column has the column's length |
| Layer3XorDec.BestFromKeepsInv | src/layers/layer3_xor_dec.py:33-42 | the search keeps the best score so far and the least key reaching it |
| Layer3XorDec.ChosenKey | src/layers/layer3_xor_dec.py:28-45 | the key kept is the least candidate with the highest score when that score beats the sentinel, and otherwise 0 |
| Layer3XorDec.KeyByte | src/layers/layer3_xor_dec.py:28-45 | the loop over the 256 candidates returns `ChosenKey` of the column |
| Layer3XorDec.RecoveredKey | src/layers/layer3_xor_dec.py:23-45 | the recovered key has key_len bytes |
| Layer3XorDec.RecoverKey | src/layers/layer3_xor_dec.py:23-45 | the key loop fills key_len bytes, byte i being `ChosenKey` of column i |
| Layer3XorDec.XorWithKey | src/layers/layer3_xor_dec.py:48-53 | the loop gives one byte per payload byte, that byte XOR the key byte at its position modulo the key length |
| Layer3XorDec.Decrypt | src/layers/layer3_xor_dec.py:48-59 | the decrypted text has the payload's length |
| Layer3XorDec.DecryptEncrypt | tests/test_layer3.py:12-15 | decrypting with a key undoes the test's encryption (flip bit 0, XOR with the repeating key) |
| Layer3XorDec.DecryptXor | src/layers/layer3_xor_dec.py:6-61 | a negative key length fails; a zero key length gives empty output for an empty payload and fails otherwise; any other length gives `payload[i] ^ key[i % n] ^ 1` with the recovered key |
| Layer3XorDec.ScoreConst | src/layers/layer3_xor_dec.py:8-21 | n equal bytes score n times that byte's score |
| Layer3XorDec.ConstantColumnKey | src/layers/layer3_xor_dec.py:23-45 | on a column of equal bytes c, the search keeps the one key that turns them into spaces, c XOR 32 |
| Layer3XorDec.BangRoundTrip | tests/test_layer3.py:23-39 | a run of `!` encrypted with any one-byte key decrypts back to itself with key length 1 |
| Layer4Packets.Word16 | src/layers/layer4_packets.py:59 | a big-endian 16-bit field is in 0..0xFFFF |
| Layer4Packets.ExamineUdp | src/layers/layer4_packets.py:52-94 | the scan stops iff the UDP header is cut off, otherwise moves forward, and keeps a payload only for an addressed packet with a valid or absent UDP checksum |
| Layer4Packets.Examine | src/layers/layer4_packets.py:23-94 | a bad header moves on by 1, a non-UDP header by its length, and a kept payload comes from a valid UDP packet that passes the filter and lies inside its packet |
| Layer4Packets.HeaderSlices | src/layers/layer4_packets.py:42 | the header as sliced, with bytes 10-11 zeroed, is the header the validity test checksums |
| Layer4Packets.CheckHeader | src/layers/layer4_packets.py:23-31 | the version and length checks and what follows decide exactly as `Examine` |
| Layer4Packets.HeaderOkWhen | src/layers/layer4_packets.py:41-45 | once version and length have passed, the header is valid iff the checksum of the zeroed header equals the checksum field |
| Layer4Packets.ZeroedHeader | src/layers/layer4_packets.py:33-42 | the sliced header with bytes 10-11 zeroed, and the checksum field as a big-endian value |
| Layer4Packets.CheckChecksum | src/layers/layer4_packets.py:33-50 | the header checksum and protocol checks decide exactly as `Examine` |
| Layer4Packets.CheckProtocol | src/layers/layer4_packets.py:47-50 | for a valid header, other protocols are skipped by the header length and UDP goes to the UDP checks, exactly as `Examine` |
| Layer4Packets.CheckUdp | src/layers/layer4_packets.py:52-94 | the UDP length, filter and checksum checks decide exactly as `ExamineUdp` |
| Layer4Packets.Parse | src/layers/layer4_packets.py:17-96 | the payloads the scan keeps from `offset` on, in stream order; `ParseLength`, `ParseAccepted` and `TwoPackets` state its properties |
| Layer4Packets.ParsePackets | src/layers/layer4_packets.py:17-96 | the scan loop returns `Parse(blob, 0)` |
| Layer4Packets.ParseLength | src/layers/layer4_packets.py:63-94 | the output is never longer than the rest of the blob |
| Layer4Packets.ZerosGiveNothing | src/layers/layer4_packets.py:23-31 | a run of zero bytes holds no packet |
| Layer4Packets.EmptyAndZeros | tests/test_layer4.py:39-42 | an empty blob and 100 zero bytes give empty output |
| Layer4Packets.RawHeader | tests/test_layer4.py:22-27 | the header without its checksum is 20 bytes |
| Layer4Packets.BuildPacket | tests/test_layer4.py:16-36 | a built packet is 28 bytes plus the payload: the IPv4 header, then the UDP header, then the payload |
| Layer4Packets.IpHeaderFields | tests/test_layer4.py:19-32 | the built IPv4 header has version 4 and length 20, protocol 17, the configured addresses, and a checksum equal to that of the header with the field zeroed |
| Layer4Packets.UdpHeader | tests/test_layer4.py:34-35 | the built UDP header is 8 bytes with the configured destination port, the given length and checksum 0 |
| Layer4Packets.HeaderOkAt | tests/test_layer4.py:45-50 | a 20-byte header with version 4 and a matching checksum passes the header checks wherever it sits in the stream |
| Layer4Packets.BuiltHeaderOk | tests/test_layer4.py:45-50 | the header of a built packet passes the header checks and names UDP, wherever the packet sits |
| Layer4Packets.BuiltUdpAccepted | tests/test_layer4.py:45-50 | the UDP part of a built packet passes the filter and the UDP checks, and its whole payload is kept |
| Layer4Packets.ParseAccepted | src/layers/layer4_packets.py:93-94 | a kept payload comes first in the output of the scan from that offset |
| Layer4Packets.WindowSlice | tests/test_layer4.py:53-58 | a window of the stream that holds a packet reads like the packet |
| Layer4Packets.BuiltPacketAccepted | tests/test_layer4.py:45-50 | wherever a built packet sits in the stream, the scan keeps its payload and resumes right after it |
| Layer4Packets.TwoPackets | tests/test_layer4.py:53-58 | two built packets in a row give the concatenation of their payloads |
| Layers.GetPayload | src/layers.py:24-51 | the copy with its own markers finds the same block as the helper, which starts with `<~` and ends with `~>` |
| Layers.FlipAndRotate | src/layers.py:53-66 | the output has the input's length and byte i is the layer 1 transform of input byte i |
| Layers.CheckParity | src/layers.py:69-106 | the output is the valid bytes' data bits repacked, as in both layer 2 copies |
| Layers.ScoreEnglish | src/layers.py:110-125 | with capitals and small letters in separate branches, the total is the same score as layer 3's |
| Layers.KeyByte | src/layers.py:132-142 | the candidate loop returns layer 3's `ChosenKey` of the column |
| Layers.RecoverKey | src/layers.py:127-142 | the key loop fills key_len bytes, byte i being layer 3's chosen key of column i |
| Layers.DecryptXor | src/layers.py:109-148 | the same errors and the same decryption as `Layer3XorDec.DecryptXor` |

## Left out

- The ASCII85 decoding (`decode_ascii85`, layer 0) is not part of this model. It is a wrapper over the standard library's base-85 decoder.
- Layer 5 (AES key unwrap and AES-CTR through a cryptography library), the orchestrator and the command-line entry point are not part of this model.
- `get_payload_from_layer_output`: the file read (`path.read_text`) is left out. `Helpers.GetPayload` and `Layers.GetPayload` take the file's text, and the `ValueError`s are `Err` results.
- Helpers.HexToBytes: tokens are read as plain hex digits. Python's `int(x, 16)` also accepts a sign, a `0x` prefix and underscores between digits; such tokens are reported as `NotHex` here.
- Helpers.Tokens: only the ASCII separators of `str.split()` are modelled. Unicode white space is not.
- TomtelVm.RunFor: the source's dispatch loop has no step limit. The model runs for at most `fuel` steps, and a program that is still running then ends in `OutOfFuel`. Non-terminating programs are therefore not distinguished from slow ones.
- TomtelVm.Outcome: the source returns the same bytes for HALT and for the quiet `break`. The model keeps them apart as `Halted` and `Stopped`, with the same output.
- TomtelVm.Outcome: on an unknown opcode the source raises, and the output gathered so far is lost. `Faulted` carries only the opcode and the address.
- TomtelVm: the `addr < 0` test at `layer6_tomtel_vm.py:62` is left out, because pc is always masked to 0..2^32−1 and cannot be negative.
- Layer4Packets: `socket.inet_ntoa` and `struct.unpack` are modelled as comparisons of the 4-byte addresses with `[10,1,1,10]` and `[10,1,1,200]`, and as big-endian field reads.
- Layer3XorDec.DecryptXor: a key length that is not an integer is not modelled. Python would raise a `TypeError`.
- Layer3XorDec.ChosenKey: the sentinel is modelled as written. A column long enough (10^8 bytes or more) for every candidate to score at or below −10^9 keeps key 0.
- Bytes are `int`s in 0..255 and 32-bit registers `int`s in 0..2^32−1, masked explicitly with `%` where the source masks with `&`.
