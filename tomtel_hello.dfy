/** The example program of the machine's documentation: run on the
    reference machine it prints `Hello, world!` and halts. The proof follows
    the 40 steps of the run, one lemma per step, over any memory holding the
    program's bytes. */
module TomtelHello {
  import opened Bytes
  import Helpers
  import opened TomtelVm

  /** The ASCII bytes of `Hello, world!`. */
  const GREETING: seq<byte> := [72, 101, 108, 108, 111, 44, 32, 119, 111, 114, 108, 100, 33]

  lemma GreetingIsAscii()
    ensures |GREETING| == |"Hello, world!"|
    ensures forall i :: 0 <= i < |GREETING| ==> GREETING[i] == "Hello, world!"[i] as int
  {
  }

  /** The bytes of the program, one by one. */
  predicate HelloCode(m: seq<byte>)
  {
    |m| == 82
    && m[0] == 0x50 && m[1] == 0x48 && m[2] == 0xC2 && m[3] == 0x02 && m[4] == 0xA8 && m[5] == 0x4D && m[6] == 0x00 && m[7] == 0x00
    && m[8] == 0x00 && m[9] == 0x4F && m[10] == 0x02 && m[11] == 0x50 && m[12] == 0x09 && m[13] == 0xC4 && m[14] == 0x02 && m[15] == 0x02
    && m[16] == 0xE1 && m[17] == 0x01 && m[18] == 0x4F && m[19] == 0x02 && m[20] == 0xC1 && m[21] == 0x22 && m[22] == 0x1D && m[23] == 0x00
    && m[24] == 0x00 && m[25] == 0x00 && m[26] == 0x48 && m[27] == 0x30 && m[28] == 0x02 && m[29] == 0x58 && m[30] == 0x03 && m[31] == 0x4F
    && m[32] == 0x02 && m[33] == 0xB0 && m[34] == 0x29 && m[35] == 0x00 && m[36] == 0x00 && m[37] == 0x00 && m[38] == 0x48 && m[39] == 0x31
    && m[40] == 0x02 && m[41] == 0x50 && m[42] == 0x0C && m[43] == 0xC3 && m[44] == 0x02 && m[45] == 0xAA && m[46] == 0x57 && m[47] == 0x48
    && m[48] == 0x02 && m[49] == 0xC1 && m[50] == 0x21 && m[51] == 0x3A && m[52] == 0x00 && m[53] == 0x00 && m[54] == 0x00 && m[55] == 0x48
    && m[56] == 0x32 && m[57] == 0x02 && m[58] == 0x48 && m[59] == 0x77 && m[60] == 0x02 && m[61] == 0x48 && m[62] == 0x6F && m[63] == 0x02
    && m[64] == 0x48 && m[65] == 0x72 && m[66] == 0x02 && m[67] == 0x48 && m[68] == 0x6C && m[69] == 0x02 && m[70] == 0x48 && m[71] == 0x64
    && m[72] == 0x02 && m[73] == 0x48 && m[74] == 0x21 && m[75] == 0x02 && m[76] == 0x01 && m[77] == 0x65 && m[78] == 0x6F && m[79] == 0x33
    && m[80] == 0x34 && m[81] == 0x2C
  }

  /** From the initial state, the program halts after 39 steps with the whole
      greeting as its output. */
  lemma {:induction false} HelloFrom0(m: seq<byte>, o: seq<byte>, fuel: nat)
    requires HelloCode(m)
    ensures RunFor(State(m, [0, 0, 0, 0, 0, 0, 0], [0, 0, 0, 0, 0, 0, 0], o), fuel + 40) == Halted(o + [72, 101, 108, 108, 111, 44, 32, 119, 111, 114, 108, 100, 33])
  {
    RunExec(State(m, [0, 0, 0, 0, 0, 0, 0], [0, 0, 0, 0, 0, 0, 0], o), Mvi(2),
            State(m, [0, 0, 72, 0, 0, 0, 0], [0, 0, 0, 0, 0, 0, 2], o), fuel + 39);
    HelloFrom1(m, o, fuel);
  }

  lemma {:induction false} HelloFrom1(m: seq<byte>, o: seq<byte>, fuel: nat)
    requires HelloCode(m)
    ensures RunFor(State(m, [0, 0, 72, 0, 0, 0, 0], [0, 0, 0, 0, 0, 0, 2], o), fuel + 39) == Halted(o + [72, 101, 108, 108, 111, 44, 32, 119, 111, 114, 108, 100, 33])
  {
    RunExec(State(m, [0, 0, 72, 0, 0, 0, 0], [0, 0, 0, 0, 0, 0, 2], o), Add,
            State(m, [0, 72, 72, 0, 0, 0, 0], [0, 0, 0, 0, 0, 0, 3], o), fuel + 38);
    HelloFrom2(m, o, fuel);
  }

  lemma {:induction false} HelloFrom2(m: seq<byte>, o: seq<byte>, fuel: nat)
    requires HelloCode(m)
    ensures RunFor(State(m, [0, 72, 72, 0, 0, 0, 0], [0, 0, 0, 0, 0, 0, 3], o), fuel + 38) == Halted(o + [72, 101, 108, 108, 111, 44, 32, 119, 111, 114, 108, 100, 33])
  {
    RunExec(State(m, [0, 72, 72, 0, 0, 0, 0], [0, 0, 0, 0, 0, 0, 3], o), Out,
            State(m, [0, 72, 72, 0, 0, 0, 0], [0, 0, 0, 0, 0, 0, 4], o + [72]), fuel + 37);
    HelloFrom3(m, o + [72], fuel);
    assert o + [72] + [101, 108, 108, 111, 44, 32, 119, 111, 114, 108, 100, 33] == o + [72, 101, 108, 108, 111, 44, 32, 119, 111, 114, 108, 100, 33];
  }

  lemma {:induction false} HelloFrom3(m: seq<byte>, o: seq<byte>, fuel: nat)
    requires HelloCode(m)
    ensures RunFor(State(m, [0, 72, 72, 0, 0, 0, 0], [0, 0, 0, 0, 0, 0, 4], o), fuel + 37) == Halted(o + [101, 108, 108, 111, 44, 32, 119, 111, 114, 108, 100, 33])
  {
    assert Helpers.ReadU32Le(m, 5) == 77;
    RunExec(State(m, [0, 72, 72, 0, 0, 0, 0], [0, 0, 0, 0, 0, 0, 4], o), Mvi32(5),
            State(m, [0, 72, 72, 0, 0, 0, 0], [0, 0, 0, 0, 0, 77, 9], o), fuel + 36);
    HelloFrom4(m, o, fuel);
  }

  lemma {:induction false} HelloFrom4(m: seq<byte>, o: seq<byte>, fuel: nat)
    requires HelloCode(m)
    ensures RunFor(State(m, [0, 72, 72, 0, 0, 0, 0], [0, 0, 0, 0, 0, 77, 9], o), fuel + 36) == Halted(o + [101, 108, 108, 111, 44, 32, 119, 111, 114, 108, 100, 33])
  {
    assert Helpers.ReadU8(m, 77) == 101;
    RunExec(State(m, [0, 72, 72, 0, 0, 0, 0], [0, 0, 0, 0, 0, 77, 9], o), Mv(1, 7),
            State(m, [0, 101, 72, 0, 0, 0, 0], [0, 0, 0, 0, 0, 77, 10], o), fuel + 35);
    HelloFrom5(m, o, fuel);
  }

  lemma {:induction false} HelloFrom5(m: seq<byte>, o: seq<byte>, fuel: nat)
    requires HelloCode(m)
    ensures RunFor(State(m, [0, 101, 72, 0, 0, 0, 0], [0, 0, 0, 0, 0, 77, 10], o), fuel + 35) == Halted(o + [101, 108, 108, 111, 44, 32, 119, 111, 114, 108, 100, 33])
  {
    RunExec(State(m, [0, 101, 72, 0, 0, 0, 0], [0, 0, 0, 0, 0, 77, 10], o), Out,
            State(m, [0, 101, 72, 0, 0, 0, 0], [0, 0, 0, 0, 0, 77, 11], o + [101]), fuel + 34);
    HelloFrom6(m, o + [101], fuel);
    assert o + [101] + [108, 108, 111, 44, 32, 119, 111, 114, 108, 100, 33] == o + [101, 108, 108, 111, 44, 32, 119, 111, 114, 108, 100, 33];
  }

  lemma {:induction false} HelloFrom6(m: seq<byte>, o: seq<byte>, fuel: nat)
    requires HelloCode(m)
    ensures RunFor(State(m, [0, 101, 72, 0, 0, 0, 0], [0, 0, 0, 0, 0, 77, 11], o), fuel + 34) == Halted(o + [108, 108, 111, 44, 32, 119, 111, 114, 108, 100, 33])
  {
    RunExec(State(m, [0, 101, 72, 0, 0, 0, 0], [0, 0, 0, 0, 0, 77, 11], o), Mvi(2),
            State(m, [0, 101, 9, 0, 0, 0, 0], [0, 0, 0, 0, 0, 77, 13], o), fuel + 33);
    HelloFrom7(m, o, fuel);
  }

  lemma {:induction false} HelloFrom7(m: seq<byte>, o: seq<byte>, fuel: nat)
    requires HelloCode(m)
    ensures RunFor(State(m, [0, 101, 9, 0, 0, 0, 0], [0, 0, 0, 0, 0, 77, 13], o), fuel + 33) == Halted(o + [108, 108, 111, 44, 32, 119, 111, 114, 108, 100, 33])
  {
    assert Xor(101, 9) == 108;
    RunExec(State(m, [0, 101, 9, 0, 0, 0, 0], [0, 0, 0, 0, 0, 77, 13], o), XorAB,
            State(m, [0, 108, 9, 0, 0, 0, 0], [0, 0, 0, 0, 0, 77, 14], o), fuel + 32);
    HelloFrom8(m, o, fuel);
  }

  lemma {:induction false} HelloFrom8(m: seq<byte>, o: seq<byte>, fuel: nat)
    requires HelloCode(m)
    ensures RunFor(State(m, [0, 108, 9, 0, 0, 0, 0], [0, 0, 0, 0, 0, 77, 14], o), fuel + 32) == Halted(o + [108, 108, 111, 44, 32, 119, 111, 114, 108, 100, 33])
  {
    RunExec(State(m, [0, 108, 9, 0, 0, 0, 0], [0, 0, 0, 0, 0, 77, 14], o), Out,
            State(m, [0, 108, 9, 0, 0, 0, 0], [0, 0, 0, 0, 0, 77, 15], o + [108]), fuel + 31);
    HelloFrom9(m, o + [108], fuel);
    assert o + [108] + [108, 111, 44, 32, 119, 111, 114, 108, 100, 33] == o + [108, 108, 111, 44, 32, 119, 111, 114, 108, 100, 33];
  }

  lemma {:induction false} HelloFrom9(m: seq<byte>, o: seq<byte>, fuel: nat)
    requires HelloCode(m)
    ensures RunFor(State(m, [0, 108, 9, 0, 0, 0, 0], [0, 0, 0, 0, 0, 77, 15], o), fuel + 31) == Halted(o + [108, 111, 44, 32, 119, 111, 114, 108, 100, 33])
  {
    RunExec(State(m, [0, 108, 9, 0, 0, 0, 0], [0, 0, 0, 0, 0, 77, 15], o), Out,
            State(m, [0, 108, 9, 0, 0, 0, 0], [0, 0, 0, 0, 0, 77, 16], o + [108]), fuel + 30);
    HelloFrom10(m, o + [108], fuel);
    assert o + [108] + [111, 44, 32, 119, 111, 114, 108, 100, 33] == o + [108, 111, 44, 32, 119, 111, 114, 108, 100, 33];
  }

  lemma {:induction false} HelloFrom10(m: seq<byte>, o: seq<byte>, fuel: nat)
    requires HelloCode(m)
    ensures RunFor(State(m, [0, 108, 9, 0, 0, 0, 0], [0, 0, 0, 0, 0, 77, 16], o), fuel + 30) == Halted(o + [111, 44, 32, 119, 111, 114, 108, 100, 33])
  {
    RunExec(State(m, [0, 108, 9, 0, 0, 0, 0], [0, 0, 0, 0, 0, 77, 16], o), Aptr,
            State(m, [0, 108, 9, 0, 0, 0, 0], [0, 0, 0, 0, 0, 78, 18], o), fuel + 29);
    HelloFrom11(m, o, fuel);
  }

  lemma {:induction false} HelloFrom11(m: seq<byte>, o: seq<byte>, fuel: nat)
    requires HelloCode(m)
    ensures RunFor(State(m, [0, 108, 9, 0, 0, 0, 0], [0, 0, 0, 0, 0, 78, 18], o), fuel + 29) == Halted(o + [111, 44, 32, 119, 111, 114, 108, 100, 33])
  {
    assert Helpers.ReadU8(m, 78) == 111;
    RunExec(State(m, [0, 108, 9, 0, 0, 0, 0], [0, 0, 0, 0, 0, 78, 18], o), Mv(1, 7),
            State(m, [0, 111, 9, 0, 0, 0, 0], [0, 0, 0, 0, 0, 78, 19], o), fuel + 28);
    HelloFrom12(m, o, fuel);
  }

  lemma {:induction false} HelloFrom12(m: seq<byte>, o: seq<byte>, fuel: nat)
    requires HelloCode(m)
    ensures RunFor(State(m, [0, 111, 9, 0, 0, 0, 0], [0, 0, 0, 0, 0, 78, 19], o), fuel + 28) == Halted(o + [111, 44, 32, 119, 111, 114, 108, 100, 33])
  {
    RunExec(State(m, [0, 111, 9, 0, 0, 0, 0], [0, 0, 0, 0, 0, 78, 19], o), Out,
            State(m, [0, 111, 9, 0, 0, 0, 0], [0, 0, 0, 0, 0, 78, 20], o + [111]), fuel + 27);
    HelloFrom13(m, o + [111], fuel);
    assert o + [111] + [44, 32, 119, 111, 114, 108, 100, 33] == o + [111, 44, 32, 119, 111, 114, 108, 100, 33];
  }

  lemma {:induction false} HelloFrom13(m: seq<byte>, o: seq<byte>, fuel: nat)
    requires HelloCode(m)
    ensures RunFor(State(m, [0, 111, 9, 0, 0, 0, 0], [0, 0, 0, 0, 0, 78, 20], o), fuel + 27) == Halted(o + [44, 32, 119, 111, 114, 108, 100, 33])
  {
    RunExec(State(m, [0, 111, 9, 0, 0, 0, 0], [0, 0, 0, 0, 0, 78, 20], o), Cmp,
            State(m, [0, 111, 9, 0, 0, 0, 1], [0, 0, 0, 0, 0, 78, 21], o), fuel + 26);
    HelloFrom14(m, o, fuel);
  }

  lemma {:induction false} HelloFrom14(m: seq<byte>, o: seq<byte>, fuel: nat)
    requires HelloCode(m)
    ensures RunFor(State(m, [0, 111, 9, 0, 0, 0, 1], [0, 0, 0, 0, 0, 78, 21], o), fuel + 26) == Halted(o + [44, 32, 119, 111, 114, 108, 100, 33])
  {
    assert Helpers.ReadU32Le(m, 22) == 29;
    RunExec(State(m, [0, 111, 9, 0, 0, 0, 1], [0, 0, 0, 0, 0, 78, 21], o), Jnz,
            State(m, [0, 111, 9, 0, 0, 0, 1], [0, 0, 0, 0, 0, 78, 29], o), fuel + 25);
    HelloFrom15(m, o, fuel);
  }

  lemma {:induction false} HelloFrom15(m: seq<byte>, o: seq<byte>, fuel: nat)
    requires HelloCode(m)
    ensures RunFor(State(m, [0, 111, 9, 0, 0, 0, 1], [0, 0, 0, 0, 0, 78, 29], o), fuel + 25) == Halted(o + [44, 32, 119, 111, 114, 108, 100, 33])
  {
    RunExec(State(m, [0, 111, 9, 0, 0, 0, 1], [0, 0, 0, 0, 0, 78, 29], o), Mvi(3),
            State(m, [0, 111, 9, 3, 0, 0, 1], [0, 0, 0, 0, 0, 78, 31], o), fuel + 24);
    HelloFrom16(m, o, fuel);
  }

  lemma {:induction false} HelloFrom16(m: seq<byte>, o: seq<byte>, fuel: nat)
    requires HelloCode(m)
    ensures RunFor(State(m, [0, 111, 9, 3, 0, 0, 1], [0, 0, 0, 0, 0, 78, 31], o), fuel + 24) == Halted(o + [44, 32, 119, 111, 114, 108, 100, 33])
  {
    assert Helpers.ReadU8(m, 81) == 44;
    RunExec(State(m, [0, 111, 9, 3, 0, 0, 1], [0, 0, 0, 0, 0, 78, 31], o), Mv(1, 7),
            State(m, [0, 44, 9, 3, 0, 0, 1], [0, 0, 0, 0, 0, 78, 32], o), fuel + 23);
    HelloFrom17(m, o, fuel);
  }

  lemma {:induction false} HelloFrom17(m: seq<byte>, o: seq<byte>, fuel: nat)
    requires HelloCode(m)
    ensures RunFor(State(m, [0, 44, 9, 3, 0, 0, 1], [0, 0, 0, 0, 0, 78, 32], o), fuel + 23) == Halted(o + [44, 32, 119, 111, 114, 108, 100, 33])
  {
    RunExec(State(m, [0, 44, 9, 3, 0, 0, 1], [0, 0, 0, 0, 0, 78, 32], o), Out,
            State(m, [0, 44, 9, 3, 0, 0, 1], [0, 0, 0, 0, 0, 78, 33], o + [44]), fuel + 22);
    HelloFrom18(m, o + [44], fuel);
    assert o + [44] + [32, 119, 111, 114, 108, 100, 33] == o + [44, 32, 119, 111, 114, 108, 100, 33];
  }

  lemma {:induction false} HelloFrom18(m: seq<byte>, o: seq<byte>, fuel: nat)
    requires HelloCode(m)
    ensures RunFor(State(m, [0, 44, 9, 3, 0, 0, 1], [0, 0, 0, 0, 0, 78, 33], o), fuel + 22) == Halted(o + [32, 119, 111, 114, 108, 100, 33])
  {
    assert Helpers.ReadU32Le(m, 34) == 41;
    RunExec(State(m, [0, 44, 9, 3, 0, 0, 1], [0, 0, 0, 0, 0, 78, 33], o), Mvi32(6),
            State(m, [0, 44, 9, 3, 0, 0, 1], [0, 0, 0, 0, 0, 78, 41], o), fuel + 21);
    HelloFrom19(m, o, fuel);
  }

  lemma {:induction false} HelloFrom19(m: seq<byte>, o: seq<byte>, fuel: nat)
    requires HelloCode(m)
    ensures RunFor(State(m, [0, 44, 9, 3, 0, 0, 1], [0, 0, 0, 0, 0, 78, 41], o), fuel + 21) == Halted(o + [32, 119, 111, 114, 108, 100, 33])
  {
    RunExec(State(m, [0, 44, 9, 3, 0, 0, 1], [0, 0, 0, 0, 0, 78, 41], o), Mvi(2),
            State(m, [0, 44, 12, 3, 0, 0, 1], [0, 0, 0, 0, 0, 78, 43], o), fuel + 20);
    HelloFrom20(m, o, fuel);
  }

  lemma {:induction false} HelloFrom20(m: seq<byte>, o: seq<byte>, fuel: nat)
    requires HelloCode(m)
    ensures RunFor(State(m, [0, 44, 12, 3, 0, 0, 1], [0, 0, 0, 0, 0, 78, 43], o), fuel + 20) == Halted(o + [32, 119, 111, 114, 108, 100, 33])
  {
    RunExec(State(m, [0, 44, 12, 3, 0, 0, 1], [0, 0, 0, 0, 0, 78, 43], o), Sub,
            State(m, [0, 32, 12, 3, 0, 0, 1], [0, 0, 0, 0, 0, 78, 44], o), fuel + 19);
    HelloFrom21(m, o, fuel);
  }

  lemma {:induction false} HelloFrom21(m: seq<byte>, o: seq<byte>, fuel: nat)
    requires HelloCode(m)
    ensures RunFor(State(m, [0, 32, 12, 3, 0, 0, 1], [0, 0, 0, 0, 0, 78, 44], o), fuel + 19) == Halted(o + [32, 119, 111, 114, 108, 100, 33])
  {
    RunExec(State(m, [0, 32, 12, 3, 0, 0, 1], [0, 0, 0, 0, 0, 78, 44], o), Out,
            State(m, [0, 32, 12, 3, 0, 0, 1], [0, 0, 0, 0, 0, 78, 45], o + [32]), fuel + 18);
    HelloFrom22(m, o + [32], fuel);
    assert o + [32] + [119, 111, 114, 108, 100, 33] == o + [32, 119, 111, 114, 108, 100, 33];
  }

  lemma {:induction false} HelloFrom22(m: seq<byte>, o: seq<byte>, fuel: nat)
    requires HelloCode(m)
    ensures RunFor(State(m, [0, 32, 12, 3, 0, 0, 1], [0, 0, 0, 0, 0, 78, 45], o), fuel + 18) == Halted(o + [119, 111, 114, 108, 100, 33])
  {
    RunExec(State(m, [0, 32, 12, 3, 0, 0, 1], [0, 0, 0, 0, 0, 78, 45], o), Mv32(5, 2),
            State(m, [0, 32, 12, 3, 0, 0, 1], [0, 0, 0, 0, 0, 0, 46], o), fuel + 17);
    HelloFrom23(m, o, fuel);
  }

  lemma {:induction false} HelloFrom23(m: seq<byte>, o: seq<byte>, fuel: nat)
    requires HelloCode(m)
    ensures RunFor(State(m, [0, 32, 12, 3, 0, 0, 1], [0, 0, 0, 0, 0, 0, 46], o), fuel + 17) == Halted(o + [119, 111, 114, 108, 100, 33])
  {
    assert Helpers.ReadU8(m, 3) == 2;
    RunExec(State(m, [0, 32, 12, 3, 0, 0, 1], [0, 0, 0, 0, 0, 0, 46], o), Mv(2, 7),
            State(m, [0, 32, 2, 3, 0, 0, 1], [0, 0, 0, 0, 0, 0, 47], o), fuel + 16);
    HelloFrom24(m, o, fuel);
  }

  lemma {:induction false} HelloFrom24(m: seq<byte>, o: seq<byte>, fuel: nat)
    requires HelloCode(m)
    ensures RunFor(State(m, [0, 32, 2, 3, 0, 0, 1], [0, 0, 0, 0, 0, 0, 47], o), fuel + 16) == Halted(o + [119, 111, 114, 108, 100, 33])
  {
    RunExec(State(m, [0, 32, 2, 3, 0, 0, 1], [0, 0, 0, 0, 0, 0, 47], o), Mvi(1),
            State(m, [0, 2, 2, 3, 0, 0, 1], [0, 0, 0, 0, 0, 0, 49], o), fuel + 15);
    HelloFrom25(m, o, fuel);
  }

  lemma {:induction false} HelloFrom25(m: seq<byte>, o: seq<byte>, fuel: nat)
    requires HelloCode(m)
    ensures RunFor(State(m, [0, 2, 2, 3, 0, 0, 1], [0, 0, 0, 0, 0, 0, 49], o), fuel + 15) == Halted(o + [119, 111, 114, 108, 100, 33])
  {
    RunExec(State(m, [0, 2, 2, 3, 0, 0, 1], [0, 0, 0, 0, 0, 0, 49], o), Cmp,
            State(m, [0, 2, 2, 3, 0, 0, 0], [0, 0, 0, 0, 0, 0, 50], o), fuel + 14);
    HelloFrom26(m, o, fuel);
  }

  lemma {:induction false} HelloFrom26(m: seq<byte>, o: seq<byte>, fuel: nat)
    requires HelloCode(m)
    ensures RunFor(State(m, [0, 2, 2, 3, 0, 0, 0], [0, 0, 0, 0, 0, 0, 50], o), fuel + 14) == Halted(o + [119, 111, 114, 108, 100, 33])
  {
    assert Helpers.ReadU32Le(m, 51) == 58;
    RunExec(State(m, [0, 2, 2, 3, 0, 0, 0], [0, 0, 0, 0, 0, 0, 50], o), Jez,
            State(m, [0, 2, 2, 3, 0, 0, 0], [0, 0, 0, 0, 0, 0, 58], o), fuel + 13);
    HelloFrom27(m, o, fuel);
  }

  lemma {:induction false} HelloFrom27(m: seq<byte>, o: seq<byte>, fuel: nat)
    requires HelloCode(m)
    ensures RunFor(State(m, [0, 2, 2, 3, 0, 0, 0], [0, 0, 0, 0, 0, 0, 58], o), fuel + 13) == Halted(o + [119, 111, 114, 108, 100, 33])
  {
    RunExec(State(m, [0, 2, 2, 3, 0, 0, 0], [0, 0, 0, 0, 0, 0, 58], o), Mvi(1),
            State(m, [0, 119, 2, 3, 0, 0, 0], [0, 0, 0, 0, 0, 0, 60], o), fuel + 12);
    HelloFrom28(m, o, fuel);
  }

  lemma {:induction false} HelloFrom28(m: seq<byte>, o: seq<byte>, fuel: nat)
    requires HelloCode(m)
    ensures RunFor(State(m, [0, 119, 2, 3, 0, 0, 0], [0, 0, 0, 0, 0, 0, 60], o), fuel + 12) == Halted(o + [119, 111, 114, 108, 100, 33])
  {
    RunExec(State(m, [0, 119, 2, 3, 0, 0, 0], [0, 0, 0, 0, 0, 0, 60], o), Out,
            State(m, [0, 119, 2, 3, 0, 0, 0], [0, 0, 0, 0, 0, 0, 61], o + [119]), fuel + 11);
    HelloFrom29(m, o + [119], fuel);
    assert o + [119] + [111, 114, 108, 100, 33] == o + [119, 111, 114, 108, 100, 33];
  }

  lemma {:induction false} HelloFrom29(m: seq<byte>, o: seq<byte>, fuel: nat)
    requires HelloCode(m)
    ensures RunFor(State(m, [0, 119, 2, 3, 0, 0, 0], [0, 0, 0, 0, 0, 0, 61], o), fuel + 11) == Halted(o + [111, 114, 108, 100, 33])
  {
    RunExec(State(m, [0, 119, 2, 3, 0, 0, 0], [0, 0, 0, 0, 0, 0, 61], o), Mvi(1),
            State(m, [0, 111, 2, 3, 0, 0, 0], [0, 0, 0, 0, 0, 0, 63], o), fuel + 10);
    HelloFrom30(m, o, fuel);
  }

  lemma {:induction false} HelloFrom30(m: seq<byte>, o: seq<byte>, fuel: nat)
    requires HelloCode(m)
    ensures RunFor(State(m, [0, 111, 2, 3, 0, 0, 0], [0, 0, 0, 0, 0, 0, 63], o), fuel + 10) == Halted(o + [111, 114, 108, 100, 33])
  {
    RunExec(State(m, [0, 111, 2, 3, 0, 0, 0], [0, 0, 0, 0, 0, 0, 63], o), Out,
            State(m, [0, 111, 2, 3, 0, 0, 0], [0, 0, 0, 0, 0, 0, 64], o + [111]), fuel + 9);
    HelloFrom31(m, o + [111], fuel);
    assert o + [111] + [114, 108, 100, 33] == o + [111, 114, 108, 100, 33];
  }

  lemma {:induction false} HelloFrom31(m: seq<byte>, o: seq<byte>, fuel: nat)
    requires HelloCode(m)
    ensures RunFor(State(m, [0, 111, 2, 3, 0, 0, 0], [0, 0, 0, 0, 0, 0, 64], o), fuel + 9) == Halted(o + [114, 108, 100, 33])
  {
    RunExec(State(m, [0, 111, 2, 3, 0, 0, 0], [0, 0, 0, 0, 0, 0, 64], o), Mvi(1),
            State(m, [0, 114, 2, 3, 0, 0, 0], [0, 0, 0, 0, 0, 0, 66], o), fuel + 8);
    HelloFrom32(m, o, fuel);
  }

  lemma {:induction false} HelloFrom32(m: seq<byte>, o: seq<byte>, fuel: nat)
    requires HelloCode(m)
    ensures RunFor(State(m, [0, 114, 2, 3, 0, 0, 0], [0, 0, 0, 0, 0, 0, 66], o), fuel + 8) == Halted(o + [114, 108, 100, 33])
  {
    RunExec(State(m, [0, 114, 2, 3, 0, 0, 0], [0, 0, 0, 0, 0, 0, 66], o), Out,
            State(m, [0, 114, 2, 3, 0, 0, 0], [0, 0, 0, 0, 0, 0, 67], o + [114]), fuel + 7);
    HelloFrom33(m, o + [114], fuel);
    assert o + [114] + [108, 100, 33] == o + [114, 108, 100, 33];
  }

  lemma {:induction false} HelloFrom33(m: seq<byte>, o: seq<byte>, fuel: nat)
    requires HelloCode(m)
    ensures RunFor(State(m, [0, 114, 2, 3, 0, 0, 0], [0, 0, 0, 0, 0, 0, 67], o), fuel + 7) == Halted(o + [108, 100, 33])
  {
    RunExec(State(m, [0, 114, 2, 3, 0, 0, 0], [0, 0, 0, 0, 0, 0, 67], o), Mvi(1),
            State(m, [0, 108, 2, 3, 0, 0, 0], [0, 0, 0, 0, 0, 0, 69], o), fuel + 6);
    HelloFrom34(m, o, fuel);
  }

  lemma {:induction false} HelloFrom34(m: seq<byte>, o: seq<byte>, fuel: nat)
    requires HelloCode(m)
    ensures RunFor(State(m, [0, 108, 2, 3, 0, 0, 0], [0, 0, 0, 0, 0, 0, 69], o), fuel + 6) == Halted(o + [108, 100, 33])
  {
    RunExec(State(m, [0, 108, 2, 3, 0, 0, 0], [0, 0, 0, 0, 0, 0, 69], o), Out,
            State(m, [0, 108, 2, 3, 0, 0, 0], [0, 0, 0, 0, 0, 0, 70], o + [108]), fuel + 5);
    HelloFrom35(m, o + [108], fuel);
    assert o + [108] + [100, 33] == o + [108, 100, 33];
  }

  lemma {:induction false} HelloFrom35(m: seq<byte>, o: seq<byte>, fuel: nat)
    requires HelloCode(m)
    ensures RunFor(State(m, [0, 108, 2, 3, 0, 0, 0], [0, 0, 0, 0, 0, 0, 70], o), fuel + 5) == Halted(o + [100, 33])
  {
    RunExec(State(m, [0, 108, 2, 3, 0, 0, 0], [0, 0, 0, 0, 0, 0, 70], o), Mvi(1),
            State(m, [0, 100, 2, 3, 0, 0, 0], [0, 0, 0, 0, 0, 0, 72], o), fuel + 4);
    HelloFrom36(m, o, fuel);
  }

  lemma {:induction false} HelloFrom36(m: seq<byte>, o: seq<byte>, fuel: nat)
    requires HelloCode(m)
    ensures RunFor(State(m, [0, 100, 2, 3, 0, 0, 0], [0, 0, 0, 0, 0, 0, 72], o), fuel + 4) == Halted(o + [100, 33])
  {
    RunExec(State(m, [0, 100, 2, 3, 0, 0, 0], [0, 0, 0, 0, 0, 0, 72], o), Out,
            State(m, [0, 100, 2, 3, 0, 0, 0], [0, 0, 0, 0, 0, 0, 73], o + [100]), fuel + 3);
    HelloFrom37(m, o + [100], fuel);
    assert o + [100] + [33] == o + [100, 33];
  }

  lemma {:induction false} HelloFrom37(m: seq<byte>, o: seq<byte>, fuel: nat)
    requires HelloCode(m)
    ensures RunFor(State(m, [0, 100, 2, 3, 0, 0, 0], [0, 0, 0, 0, 0, 0, 73], o), fuel + 3) == Halted(o + [33])
  {
    RunExec(State(m, [0, 100, 2, 3, 0, 0, 0], [0, 0, 0, 0, 0, 0, 73], o), Mvi(1),
            State(m, [0, 33, 2, 3, 0, 0, 0], [0, 0, 0, 0, 0, 0, 75], o), fuel + 2);
    HelloFrom38(m, o, fuel);
  }

  lemma {:induction false} HelloFrom38(m: seq<byte>, o: seq<byte>, fuel: nat)
    requires HelloCode(m)
    ensures RunFor(State(m, [0, 33, 2, 3, 0, 0, 0], [0, 0, 0, 0, 0, 0, 75], o), fuel + 2) == Halted(o + [33])
  {
    RunExec(State(m, [0, 33, 2, 3, 0, 0, 0], [0, 0, 0, 0, 0, 0, 75], o), Out,
            State(m, [0, 33, 2, 3, 0, 0, 0], [0, 0, 0, 0, 0, 0, 76], o + [33]), fuel + 1);
    HelloFrom39(m, o + [33], fuel);
    assert o + [33] + [] == o + [33];
  }

  lemma {:induction false} HelloFrom39(m: seq<byte>, o: seq<byte>, fuel: nat)
    requires HelloCode(m)
    ensures RunFor(State(m, [0, 33, 2, 3, 0, 0, 0], [0, 0, 0, 0, 0, 0, 76], o), fuel + 1) == Halted(o + [])
  {
    assert Step(State(m, [0, 33, 2, 3, 0, 0, 0], [0, 0, 0, 0, 0, 0, 76], o)) == StepResult.Halt;
  }

  lemma HelloBytes0(p: seq<byte>)
    requires p == Helpers.HELLO_PROGRAM
    ensures p[0] == 0x50 && p[1] == 0x48 && p[2] == 0xC2 && p[3] == 0x02 && p[4] == 0xA8 && p[5] == 0x4D && p[6] == 0x00 && p[7] == 0x00
  {
  }

  lemma HelloBytes1(p: seq<byte>)
    requires p == Helpers.HELLO_PROGRAM
    ensures p[8] == 0x00 && p[9] == 0x4F && p[10] == 0x02 && p[11] == 0x50 && p[12] == 0x09 && p[13] == 0xC4 && p[14] == 0x02 && p[15] == 0x02
  {
  }

  lemma HelloBytes2(p: seq<byte>)
    requires p == Helpers.HELLO_PROGRAM
    ensures p[16] == 0xE1 && p[17] == 0x01 && p[18] == 0x4F && p[19] == 0x02 && p[20] == 0xC1 && p[21] == 0x22 && p[22] == 0x1D && p[23] == 0x00
  {
  }

  lemma HelloBytes3(p: seq<byte>)
    requires p == Helpers.HELLO_PROGRAM
    ensures p[24] == 0x00 && p[25] == 0x00 && p[26] == 0x48 && p[27] == 0x30 && p[28] == 0x02 && p[29] == 0x58 && p[30] == 0x03 && p[31] == 0x4F
  {
  }

  lemma HelloBytes4(p: seq<byte>)
    requires p == Helpers.HELLO_PROGRAM
    ensures p[32] == 0x02 && p[33] == 0xB0 && p[34] == 0x29 && p[35] == 0x00 && p[36] == 0x00 && p[37] == 0x00 && p[38] == 0x48 && p[39] == 0x31
  {
  }

  lemma HelloBytes5(p: seq<byte>)
    requires p == Helpers.HELLO_PROGRAM
    ensures p[40] == 0x02 && p[41] == 0x50 && p[42] == 0x0C && p[43] == 0xC3 && p[44] == 0x02 && p[45] == 0xAA && p[46] == 0x57 && p[47] == 0x48
  {
  }

  lemma HelloBytes6(p: seq<byte>)
    requires p == Helpers.HELLO_PROGRAM
    ensures p[48] == 0x02 && p[49] == 0xC1 && p[50] == 0x21 && p[51] == 0x3A && p[52] == 0x00 && p[53] == 0x00 && p[54] == 0x00 && p[55] == 0x48
  {
  }

  lemma HelloBytes7(p: seq<byte>)
    requires p == Helpers.HELLO_PROGRAM
    ensures p[56] == 0x32 && p[57] == 0x02 && p[58] == 0x48 && p[59] == 0x77 && p[60] == 0x02 && p[61] == 0x48 && p[62] == 0x6F && p[63] == 0x02
  {
  }

  lemma HelloBytes8(p: seq<byte>)
    requires p == Helpers.HELLO_PROGRAM
    ensures p[64] == 0x48 && p[65] == 0x72 && p[66] == 0x02 && p[67] == 0x48 && p[68] == 0x6C && p[69] == 0x02 && p[70] == 0x48 && p[71] == 0x64
  {
  }

  lemma HelloBytes9(p: seq<byte>)
    requires p == Helpers.HELLO_PROGRAM
    ensures p[72] == 0x02 && p[73] == 0x48 && p[74] == 0x21 && p[75] == 0x02 && p[76] == 0x01 && p[77] == 0x65 && p[78] == 0x6F && p[79] == 0x33
  {
  }

  lemma HelloBytes10(p: seq<byte>)
    requires p == Helpers.HELLO_PROGRAM
    ensures p[80] == 0x34 && p[81] == 0x2C
  {
  }

  lemma HelloProgramCode()
    ensures HelloCode(Helpers.HELLO_PROGRAM)
  {
    HelloBytes0(Helpers.HELLO_PROGRAM);
    HelloBytes1(Helpers.HELLO_PROGRAM);
    HelloBytes2(Helpers.HELLO_PROGRAM);
    HelloBytes3(Helpers.HELLO_PROGRAM);
    HelloBytes4(Helpers.HELLO_PROGRAM);
    HelloBytes5(Helpers.HELLO_PROGRAM);
    HelloBytes6(Helpers.HELLO_PROGRAM);
    HelloBytes7(Helpers.HELLO_PROGRAM);
    HelloBytes8(Helpers.HELLO_PROGRAM);
    HelloBytes9(Helpers.HELLO_PROGRAM);
    HelloBytes10(Helpers.HELLO_PROGRAM);
  }

  /** Any memory holding the program's bytes: the run halts with the
      greeting once it has the 40 steps it takes. */
  lemma HelloRuns(m: seq<byte>, fuel: nat)
    requires HelloCode(m) && fuel >= 40
    ensures Execute(m, fuel) == Halted(GREETING)
  {
    InitState(m);
    HelloFrom0(m, [], fuel - 40);
    assert [] + GREETING == GREETING;
  }

  lemma InitState(m: seq<byte>)
    ensures Init(m) == State(m, [0, 0, 0, 0, 0, 0, 0], [0, 0, 0, 0, 0, 0, 0], [])
  {
    var zeros: Regs8 := [0, 0, 0, 0, 0, 0, 0];
    assert Init(m).r8 == zeros;
  }

  /** `hex_to_bytes(HELLO_HEX)` gives the program's bytes, and the program
      halts with exactly `Hello, world!` as output, given at least the 40
      steps it takes. */
  lemma HelloWorld(fuel: nat)
    requires fuel >= 40
    ensures Helpers.HexToBytes(Helpers.HELLO_HEX) == Ok(Helpers.HELLO_PROGRAM)
    ensures Execute(Helpers.HexToBytes(Helpers.HELLO_HEX).value, fuel) == Halted(GREETING)
  {
    Helpers.HelloHexBytes();
    HelloProgramCode();
    HelloRuns(Helpers.HELLO_PROGRAM, fuel);
  }
}
