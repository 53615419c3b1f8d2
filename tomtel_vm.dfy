/** Layer 6: the Tomtel Core i69 virtual machine
    (src/layers/layer6_tomtel_vm.py).

    Memory is one byte buffer that holds both the program and its data and
    never changes length. There are six 8-bit registers a..f (ids 1..6), a
    pseudo-register 7 that names the memory byte at `ptr + c`, and six
    32-bit registers la, lb, lc, ld, ptr, pc (ids 1..6); id 0 of both files
    is unused. The machine repeats fetch, decode, execute until the program
    counter leaves memory, an instruction lacks its operand bytes (both a
    quiet stop), HALT, or an unknown opcode (an error).

    The pure part of this module is the specification: a `State` value, one
    `Step`, and `RunFor`, which repeats `Step` under a step budget. The
    class `Machine` is the in-place interpreter (a mutable memory buffer,
    register lists that are overwritten, an output list that is appended
    to) and is proved to compute exactly `RunFor`. */
module TomtelVm {
  import opened Bytes
  import Helpers

  // ---------------------------------------------------------------------
  // Specification: machine state and one step
  // ---------------------------------------------------------------------

  /** Everything one run owns: memory, both register files (index 0
      unused, as in the source), and the output gathered so far. */
  datatype State = State(mem: seq<byte>, r8: Regs8, r32: Regs32, out: seq<byte>)

  /** `[0] * 7`: the register lists never change length. */
  type Regs8 = r: seq<byte> | |r| == 7 witness [0, 0, 0, 0, 0, 0, 0]
  type Regs32 = r: seq<u32> | |r| == 7 witness [0, 0, 0, 0, 0, 0, 0]

  /** Memory is a copy of the bytecode; every register starts at zero. */
  function Init(bytecode: seq<byte>): (s: State)
    ensures s.mem == bytecode && s.out == []
    ensures forall i :: 0 <= i < 7 ==> s.r8[i] == 0 && s.r32[i] == 0
  {
    State(bytecode, seq(7, _ => 0), seq(7, _ => 0), [])
  }

  function Pc(s: State): u32
  {
    s.r32[6]
  }

  /** `set_pc`: the value is masked to 32 bits. */
  function WithPc(s: State, v: int): State
  {
    s.(r32 := s.r32[6 := v % U32_MOD])
  }

  /** Address named by pseudo-register 7: `(ptr + c) & 0xFFFFFFFF`. */
  function CursorAddr(s: State): u32
  {
    (s.r32[5] + s.r8[3]) % U32_MOD
  }

  /** `read8`: registers 1..6, the memory byte at the cursor for 7, else 0. */
  function Reg8(s: State, reg: int): byte
  {
    if 1 <= reg <= 6 then s.r8[reg]
    else if reg == 7 then Helpers.ReadU8(s.mem, CursorAddr(s))
    else 0
  }

  /** `write8`: the value is masked to 8 bits; id 7 stores into memory at
      the cursor; any other id outside 1..6 ignores the write. */
  function With8(s: State, reg: int, v: int): State
  {
    var v := v % 256;
    if 1 <= reg <= 6 then s.(r8 := s.r8[reg := v])
    else if reg == 7 then s.(mem := Helpers.Stored(s.mem, CursorAddr(s), v))
    else s
  }

  /** `read32`: registers 1..6, else 0. */
  function Reg32(s: State, reg: int): u32
  {
    if 1 <= reg <= 6 then s.r32[reg] else 0
  }

  /** `write32`: the value is masked to 32 bits; ids outside 1..6 ignore it. */
  function With32(s: State, reg: int, v: int): State
  {
    if 1 <= reg <= 6 then s.(r32 := s.r32[reg := v % U32_MOD]) else s
  }

  /** The instruction an opcode byte names. `dest` and `src` are the
      register ids in bits 5..3 and 2..0 of the byte. */
  datatype Instr =
    | Halt | Out | Cmp | Add | Sub | XorAB | Aptr | Jez | Jnz
    | Mv(dest: int, src: int) | Mvi(dest: int)
    | Mv32(dest: int, src: int) | Mvi32(dest: int)
    | Unknown

  function Decode(op: byte): Instr
  {
    if op == 0x01 then Instr.Halt
    else if op == 0x02 then Out
    else if op == 0xC1 then Cmp
    else if op == 0xC2 then Add
    else if op == 0xC3 then Sub
    else if op == 0xC4 then XorAB
    else if op == 0xE1 then Aptr
    else if op == 0x21 then Jez
    else if op == 0x22 then Jnz
    else if op / 64 == 1 then
      if op % 8 == 0 then Mvi((op / 8) % 8) else Mv((op / 8) % 8, op % 8)
    else if op / 64 == 2 then
      if op % 8 == 0 then Mvi32((op / 8) % 8) else Mv32((op / 8) % 8, op % 8)
    else Unknown
  }

  /** Bytes the instruction occupies, opcode included. */
  function Size(i: Instr): nat
  {
    match i
    case Aptr | Mvi(_) => 2
    case Jez | Jnz | Mvi32(_) => 5
    case _ => 1
  }

  /** What one fetch-decode-execute cycle does. `Stop` is the quiet ending
      (the loop's `break`); `Fault` is the raised "Unknown opcode" error. */
  datatype StepResult = Next(next: State) | Halt | Stop | Fault(op: byte, pc: u32)

  function Exec(s: State, i: Instr, addr: u32): StepResult
    requires addr + Size(i) <= |s.mem|
  {
    match i
    case Halt => StepResult.Halt
    case Out => Next(WithPc(s.(out := s.out + [s.r8[1]]), addr + 1))
    case Cmp => Next(WithPc(s.(r8 := s.r8[6 := if s.r8[1] != s.r8[2] then 1 else 0]), addr + 1))
    case Add => Next(WithPc(s.(r8 := s.r8[1 := (s.r8[1] as int + s.r8[2]) % 256]), addr + 1))
    case Sub => Next(WithPc(s.(r8 := s.r8[1 := (s.r8[1] as int - s.r8[2]) % 256]), addr + 1))
    case XorAB => Next(WithPc(s.(r8 := s.r8[1 := Xor(s.r8[1], s.r8[2])]), addr + 1))
    case Aptr => Next(WithPc(s.(r32 := s.r32[5 := (s.r32[5] + s.mem[addr + 1]) % U32_MOD]), addr + 2))
    case Jez => Next(WithPc(s, if s.r8[6] == 0 then Helpers.ReadU32Le(s.mem, addr + 1) else addr + 5))
    case Jnz => Next(WithPc(s, if s.r8[6] != 0 then Helpers.ReadU32Le(s.mem, addr + 1) else addr + 5))
    case Mvi(dest) => Next(WithPc(With8(s, dest, s.mem[addr + 1]), addr + 2))
    case Mv(dest, src) => Next(WithPc(With8(s, dest, Reg8(s, src)), addr + 1))
    case Mvi32(dest) =>
      var t := With32(s, dest, Helpers.ReadU32Le(s.mem, addr + 1));
      Next(if dest != 6 then WithPc(t, addr + 5) else t)
    case Mv32(dest, src) =>
      var t := With32(s, dest, Reg32(s, src));
      Next(if dest != 6 then WithPc(t, addr + 1) else t)
    case Unknown => Fault(s.mem[addr], addr)
  }

  function Step(s: State): (r: StepResult)
    ensures r.Next? ==> |r.next.mem| == |s.mem|
  {
    var addr := Pc(s);
    if addr >= |s.mem| then Stop
    else
      var i := Decode(s.mem[addr]);
      if addr + Size(i) > |s.mem| then Stop else Exec(s, i, addr)
  }

  /** How a run ends. The source returns the output for both `Halted` and
      `Stopped`; `Faulted` is its raised error, whose partial output is
      lost; `OutOfFuel` is the step budget the model adds. */
  datatype Outcome = Halted(out: seq<byte>) | Stopped(out: seq<byte>) | Faulted(op: byte, pc: u32) | OutOfFuel(state: State)

  /** At most `fuel` rounds of a dispatch loop whose body is `step`; the
      machine's own loop is `Iterate(Step, ...)`, written `RunFor`. Keeping
      the step a parameter lets the facts about whole runs be proved once,
      without looking inside an instruction. */
  function Iterate(step: State -> StepResult, s: State, fuel: nat): Outcome
    decreases fuel
  {
    if fuel == 0 then OutOfFuel(s)
    else
      match step(s)
      case Next(t) => Iterate(step, t, fuel - 1)
      case Halt => Halted(s.out)
      case Stop => Stopped(s.out)
      case Fault(op, pc) => Faulted(op, pc)
  }

  /** At most `fuel` cycles of the machine's dispatch loop. */
  function RunFor(s: State, fuel: nat): Outcome
  {
    Iterate(Step, s, fuel)
  }

  /** `run_tomtel_vm(bytecode)` with a step budget. */
  function Execute(bytecode: seq<byte>, fuel: nat): Outcome
  {
    RunFor(Init(bytecode), fuel)
  }

  // ---------------------------------------------------------------------
  // Opcode classes, read off the bits as the dispatch chain tests them
  // ---------------------------------------------------------------------

  /** APTR and MVI carry one operand byte. */
  predicate HasImm8(op: byte)
  {
    op == 0xE1 || (op / 64 == 1 && op % 8 == 0)
  }

  /** JEZ, JNZ and MVI32 carry a four-byte operand. */
  predicate HasImm32(op: byte)
  {
    op == 0x21 || op == 0x22 || (op / 64 == 2 && op % 8 == 0)
  }

  /** Bytes that reach the final `raise`: top bits 00 other than HALT, OUT,
      JEZ and JNZ, and top bits 11 other than CMP, ADD, SUB, XOR and APTR. */
  predicate Undefined(op: byte)
  {
    (op / 64 == 0 && op != 0x01 && op != 0x02 && op != 0x21 && op != 0x22)
    || (op / 64 == 3 && !(0xC1 <= op <= 0xC4) && op != 0xE1)
  }

  // ---------------------------------------------------------------------
  // How a step ends
  // ---------------------------------------------------------------------

  /** The quiet ending happens exactly when the program counter is outside
      memory or an instruction's operand bytes run past its end. */
  lemma StopIff(s: State)
    ensures Step(s) == Stop <==>
      Pc(s) >= |s.mem|
      || (HasImm8(s.mem[Pc(s)]) && Pc(s) + 2 > |s.mem|)
      || (HasImm32(s.mem[Pc(s)]) && Pc(s) + 5 > |s.mem|)
  {
  }

  /** HALT ends the run exactly when the byte at the program counter is 0x01. */
  lemma HaltIff(s: State)
    ensures Step(s) == StepResult.Halt <==> Pc(s) < |s.mem| && s.mem[Pc(s)] == 0x01
  {
  }

  /** An error is raised exactly for the undefined bytes, and it names the
      byte and the address it was fetched from. */
  lemma FaultIff(s: State)
    ensures Step(s).Fault? <==> Pc(s) < |s.mem| && Undefined(s.mem[Pc(s)])
    ensures Step(s).Fault? ==> Step(s) == Fault(s.mem[Pc(s)], Pc(s))
  {
  }

  // ---------------------------------------------------------------------
  // What each instruction does
  // ---------------------------------------------------------------------

  /** Only OUT touches the output, and it appends exactly register a. */
  lemma OutAppends(s: State)
    requires Step(s).Next?
    ensures Step(s).next.out == if s.mem[Pc(s)] == 0x02 then s.out + [s.r8[1]] else s.out
  {
  }

  /** CMP sets f to 1 exactly when a and b differ, to 0 otherwise, and
      changes nothing else but the program counter. */
  lemma CmpSetsFlag(s: State)
    requires Pc(s) < |s.mem| && s.mem[Pc(s)] == 0xC1
    ensures Step(s).Next?
    ensures Step(s).next.r8[6] == 1 <==> s.r8[1] != s.r8[2]
    ensures Step(s).next.r8[6] == 0 <==> s.r8[1] == s.r8[2]
    ensures Step(s).next.r8[..6] == s.r8[..6] && Step(s).next.mem == s.mem
    ensures Step(s).next.r32[..6] == s.r32[..6] && Step(s).next.out == s.out
    ensures Pc(Step(s).next) == (Pc(s) + 1) % U32_MOD
  {
  }

  /** ADD and SUB keep register a in 0..255 by wrapping once at most, and
      change nothing but a and pc. */
  lemma AddSubWrap(s: State)
    requires Pc(s) < |s.mem| && s.mem[Pc(s)] in {0xC2, 0xC3}
    ensures Step(s).Next?
    ensures var a: int, b: int, a': int := s.r8[1], s.r8[2], Step(s).next.r8[1];
      if s.mem[Pc(s)] == 0xC2 then a' == a + b || a' == a + b - 256
      else a' == a - b || a' == a - b + 256
    ensures Pc(Step(s).next) == (Pc(s) + 1) % U32_MOD
    ensures var t := Step(s).next;
      t.r8[0] == s.r8[0] && t.r8[2..] == s.r8[2..] && t.r32[..6] == s.r32[..6]
      && t.mem == s.mem && t.out == s.out
  {
  }

  /** ADD followed by SUB, with b untouched in between, restores a. */
  lemma AddThenSub(s: State)
    requires Pc(s) + 1 < |s.mem| && Pc(s) + 1 < U32_MOD
    requires s.mem[Pc(s)] == 0xC2 && s.mem[Pc(s) + 1] == 0xC3
    ensures Step(s).Next? && Step(Step(s).next).Next?
    ensures Step(Step(s).next).next.r8[1] == s.r8[1]
  {
    var t := Step(s).next;
    assert t.r8[1] == (s.r8[1] as int + s.r8[2]) % 256 && t.r8[2] == s.r8[2];
    assert Pc(t) == Pc(s) + 1;
  }

  /** XOR sets a to the bitwise exclusive or of a and b, and changes
      nothing but a and pc. */
  lemma XorStep(s: State)
    requires Pc(s) < |s.mem| && s.mem[Pc(s)] == 0xC4
    ensures Step(s).Next?
    ensures Step(s).next.r8[1] == Xor(s.r8[1], s.r8[2])
    ensures Pc(Step(s).next) == (Pc(s) + 1) % U32_MOD
    ensures var t := Step(s).next;
      t.r8[0] == s.r8[0] && t.r8[2..] == s.r8[2..] && t.r32[..6] == s.r32[..6]
      && t.mem == s.mem && t.out == s.out
  {
  }

  /** XOR applied twice restores a. */
  lemma XorTwice(s: State)
    requires Pc(s) + 1 < |s.mem| && Pc(s) + 1 < U32_MOD
    requires s.mem[Pc(s)] == 0xC4 && s.mem[Pc(s) + 1] == 0xC4
    ensures Step(s).Next? && Step(Step(s).next).Next?
    ensures Step(Step(s).next).next.r8[1] == s.r8[1]
  {
    var t := Step(s).next;
    assert t.r8[1] == Xor(s.r8[1], s.r8[2]) && t.r8[2] == s.r8[2];
    assert Pc(t) == Pc(s) + 1;
    XorUndo(s.r8[1], s.r8[2]);
  }

  /** APTR adds its operand to ptr, wrapping at 2^32, and moves past its
      two bytes. */
  lemma AptrWrap(s: State)
    requires Pc(s) + 2 <= |s.mem| && s.mem[Pc(s)] == 0xE1
    ensures Step(s).Next?
    ensures var p, k, p' := s.r32[5], s.mem[Pc(s) + 1], Step(s).next.r32[5];
      p' == p + k || p' == p + k - U32_MOD
    ensures Pc(Step(s).next) == (Pc(s) + 2) % U32_MOD
    ensures var t := Step(s).next;
      t.r8 == s.r8 && t.mem == s.mem && t.out == s.out && t.r32[..5] == s.r32[..5]
  {
  }

  /** JEZ jumps to its little-endian operand iff f is zero, JNZ iff f is
      not; otherwise the program counter moves past the five bytes. Nothing
      but the program counter changes. */
  lemma JumpIff(s: State)
    requires Pc(s) + 5 <= |s.mem| && s.mem[Pc(s)] in {0x21, 0x22}
    ensures Step(s).Next?
    ensures var taken := (s.mem[Pc(s)] == 0x21) == (s.r8[6] == 0);
      Pc(Step(s).next) == if taken then Helpers.ReadU32Le(s.mem, Pc(s) + 1) else (Pc(s) + 5) % U32_MOD
    ensures Step(s).next == WithPc(s, Pc(Step(s).next))
  {
  }

  /** A 32-bit move into register 6 is a jump: the program counter becomes
      the moved value and is not advanced afterwards. */
  lemma Move32ToPc(s: State)
    requires Pc(s) < |s.mem| && s.mem[Pc(s)] / 64 == 2 && (s.mem[Pc(s)] / 8) % 8 == 6
    requires s.mem[Pc(s)] % 8 == 0 ==> Pc(s) + 5 <= |s.mem|
    ensures Step(s).Next?
    ensures Pc(Step(s).next) ==
      if s.mem[Pc(s)] % 8 == 0 then Helpers.ReadU32Le(s.mem, Pc(s) + 1) else Reg32(s, s.mem[Pc(s)] % 8)
    ensures var t := Step(s).next;
      t.r8 == s.r8 && t.mem == s.mem && t.out == s.out && t.r32[..6] == s.r32[..6]
  {
    var op := s.mem[Pc(s)];
    if op % 8 == 0 {
      assert Decode(op) == Mvi32(6);
    } else {
      assert Decode(op) == Mv32(6, op % 8);
    }
  }

  /** Any other 32-bit move stores the value (or drops it for ids 0 and 7)
      and advances the program counter by the instruction's length. */
  lemma Move32Elsewhere(s: State)
    requires Pc(s) < |s.mem| && s.mem[Pc(s)] / 64 == 2 && (s.mem[Pc(s)] / 8) % 8 != 6
    requires s.mem[Pc(s)] % 8 == 0 ==> Pc(s) + 5 <= |s.mem|
    ensures Step(s).Next?
    ensures var op, t := s.mem[Pc(s)], Step(s).next;
      var v := if op % 8 == 0 then Helpers.ReadU32Le(s.mem, Pc(s) + 1) else Reg32(s, op % 8);
      Pc(t) == (Pc(s) + (if op % 8 == 0 then 5 else 1)) % U32_MOD
      && (1 <= (op / 8) % 8 <= 5 ==> t.r32[(op / 8) % 8] == v)
      && (forall i :: 1 <= i <= 5 && i != (op / 8) % 8 ==> t.r32[i] == s.r32[i])
      && t.r8 == s.r8 && t.mem == s.mem && t.out == s.out
  {
    var op, d := s.mem[Pc(s)], (s.mem[Pc(s)] / 8) % 8;
    if op % 8 == 0 {
      assert Decode(op) == Mvi32(d);
      var v := Helpers.ReadU32Le(s.mem, Pc(s) + 1);
      assert Step(s) == Next(WithPc(With32(s, d, v), Pc(s) + 5));
      Store32(s, d, v, Pc(s) + 5);
    } else {
      assert Decode(op) == Mv32(d, op % 8);
      var v := Reg32(s, op % 8);
      assert Step(s) == Next(WithPc(With32(s, d, v), Pc(s) + 1));
      Store32(s, d, v, Pc(s) + 1);
    }
  }

  /** A 32-bit store into an id other than pc, followed by the pc update. */
  lemma Store32(s: State, dest: int, v: u32, next: int)
    requires dest != 6
    ensures var t := WithPc(With32(s, dest, v), next);
      Pc(t) == next % U32_MOD
      && (1 <= dest <= 5 ==> t.r32[dest] == v)
      && (forall i :: 1 <= i <= 5 && i != dest ==> t.r32[i] == s.r32[i])
      && t.r8 == s.r8 && t.mem == s.mem && t.out == s.out
  {
  }

  /** Storing through pseudo-register 7 changes one memory byte, the one at
      `(ptr + c) mod 2^32`, and only when that address lies in memory;
      nothing else changes and memory keeps its length. */
  lemma PseudoRegisterStore(s: State, v: int)
    ensures var t := With8(s, 7, v);
      t.r8 == s.r8 && t.r32 == s.r32 && t.out == s.out && |t.mem| == |s.mem|
      && (forall i :: 0 <= i < |s.mem| && i != CursorAddr(s) ==> t.mem[i] == s.mem[i])
      && (CursorAddr(s) < |s.mem| ==> t.mem[CursorAddr(s)] == v % 256)
    ensures Reg8(With8(s, 7, v), 7) == if CursorAddr(s) < |s.mem| then v % 256 else 0
  {
    var t := With8(s, 7, v);
    assert CursorAddr(t) == CursorAddr(s);
  }

  /** An 8-bit move (top bits 01) writes register `src`, or the operand
      byte when `src` is 0, into `dest` through `write8`, and moves past its
      2 (immediate) or 1 (register) bytes. Only the written register or
      memory byte and pc change. */
  lemma Move8Step(s: State)
    requires Pc(s) < |s.mem| && s.mem[Pc(s)] / 64 == 1
    requires s.mem[Pc(s)] % 8 == 0 ==> Pc(s) + 2 <= |s.mem|
    ensures Step(s).Next?
    ensures var op := s.mem[Pc(s)];
      var v := if op % 8 == 0 then s.mem[Pc(s) + 1] else Reg8(s, op % 8);
      Step(s).next == WithPc(With8(s, (op / 8) % 8, v), Pc(s) + (if op % 8 == 0 then 2 else 1))
    ensures var op, t := s.mem[Pc(s)], Step(s).next;
      var d := (op / 8) % 8;
      var v := if op % 8 == 0 then s.mem[Pc(s) + 1] else Reg8(s, op % 8);
      Pc(t) == (Pc(s) + (if op % 8 == 0 then 2 else 1)) % U32_MOD
      && t.out == s.out && t.r32[..6] == s.r32[..6]
      && (1 <= d <= 6 ==> t.r8 == s.r8[d := v] && t.mem == s.mem)
      && (d == 7 ==> t.r8 == s.r8 && t.mem == Helpers.Stored(s.mem, CursorAddr(s), v))
      && (d == 0 ==> t.r8 == s.r8 && t.mem == s.mem)
  {
    var op := s.mem[Pc(s)];
    if op % 8 == 0 {
      assert Decode(op) == Mvi((op / 8) % 8);
    } else {
      assert Decode(op) == Mv((op / 8) % 8, op % 8);
    }
  }

  /** Writes to 8-bit id 0 and to 32-bit ids outside 1..6 change nothing. */
  lemma IgnoredWrites(s: State, v: int)
    ensures With8(s, 0, v) == s
    ensures forall reg :: !(1 <= reg <= 6) ==> With32(s, reg, v) == s
  {
  }

  // ---------------------------------------------------------------------
  // Whole runs
  // ---------------------------------------------------------------------

  /** A run that takes a step continues from the stepped state. */
  lemma IterateNext(step: State -> StepResult, s: State, t: State, fuel: nat)
    requires step(s) == Next(t) && fuel >= 1
    ensures Iterate(step, s, fuel) == Iterate(step, t, fuel - 1)
  {
  }

  /** Once a run has ended, more fuel does not change how it ended. */
  lemma {:induction false} IterateFuelMonotone(step: State -> StepResult, s: State, fuel: nat, fuel': nat)
    requires !Iterate(step, s, fuel).OutOfFuel? && fuel <= fuel'
    ensures Iterate(step, s, fuel') == Iterate(step, s, fuel)
    decreases fuel
  {
    if step(s).Next? {
      IterateFuelMonotone(step, step(s).next, fuel - 1, fuel' - 1);
    }
  }

  /** If no step shrinks the output or resizes memory, neither does a run:
      whatever it returns, or the state it runs out of fuel in, extends the
      output it started with. */
  lemma {:induction false} IterateExtendsOutput(step: State -> StepResult, s: State, fuel: nat)
    requires forall x :: step(x).Next? ==> x.out <= step(x).next.out && |step(x).next.mem| == |x.mem|
    ensures Iterate(step, s, fuel).Halted? || Iterate(step, s, fuel).Stopped? ==> s.out <= Iterate(step, s, fuel).out
    ensures Iterate(step, s, fuel).OutOfFuel? ==>
      s.out <= Iterate(step, s, fuel).state.out && |Iterate(step, s, fuel).state.mem| == |s.mem|
    decreases fuel
  {
    if fuel > 0 && step(s).Next? {
      IterateExtendsOutput(step, step(s).next, fuel - 1);
    }
  }

  /** The machine's output only ever grows over a run, and its memory keeps
      its length. */
  lemma RunExtendsOutput(s: State, fuel: nat)
    ensures RunFor(s, fuel).Halted? || RunFor(s, fuel).Stopped? ==> s.out <= RunFor(s, fuel).out
    ensures RunFor(s, fuel).OutOfFuel? ==>
      s.out <= RunFor(s, fuel).state.out && |RunFor(s, fuel).state.mem| == |s.mem|
  {
    forall x | Step(x).Next?
      ensures x.out <= Step(x).next.out && |Step(x).next.mem| == |x.mem|
    {
      OutAppends(x);
    }
    IterateExtendsOutput(Step, s, fuel);
  }

  /** An empty program returns empty output at once. */
  lemma EmptyProgram(fuel: nat)
    requires fuel >= 1
    ensures Execute([], fuel) == Stopped([])
  {
  }

  /** A lone 0xFF is an unknown opcode at address 0. */
  lemma UnknownOpcodeExample(fuel: nat)
    requires fuel >= 1
    ensures Execute([0xFF], fuel) == Faulted(0xFF, 0)
  {
    assert Decode(0xFF) == Unknown;
  }

  /** Two bytes past the largest address, ptr wraps round to 1. */
  lemma PtrWrapExample(s: State)
    requires s.r32[5] == 0xFFFF_FFFF && Pc(s) + 2 <= |s.mem|
    requires s.mem[Pc(s)] == 0xE1 && s.mem[Pc(s) + 1] == 2
    ensures Step(s).Next? && Step(s).next.r32[5] == 1
  {
  }

  /** One step of the trace below: the instruction at the program counter
      decodes to `i`, fits, and takes the state to `t`. */
  lemma RunExec(s: State, i: Instr, t: State, fuel: nat)
    requires Pc(s) < |s.mem| && Decode(s.mem[Pc(s)]) == i && Pc(s) + Size(i) <= |s.mem|
    requires Exec(s, i, Pc(s)) == Next(t)
    ensures RunFor(s, fuel + 1) == RunFor(t, fuel)
  {
    IterateNext(Step, s, t, fuel + 1);
  }

  // ---------------------------------------------------------------------
  // The interpreter as the source writes it
  // ---------------------------------------------------------------------

  /** What the dispatch loop does after one instruction: carry on, or leave
      through HALT, through `break`, or through the raised error. */
  datatype Signal = Continue | Halt | Break | Raise(op: byte, pc: u32)

  function SignalOf(r: StepResult): Signal
  {
    match r
    case Next(_) => Continue
    case Halt => Signal.Halt
    case Stop => Break
    case Fault(op, pc) => Raise(op, pc)
  }

  /** The state of one `run_tomtel_vm` call: the mutable memory buffer, the
      two register lists and the output list. */
  class Machine {
    var mem: array<byte>
    var r8: Regs8
    var r32: Regs32
    var out: seq<byte>

    /** The machine's state as a value. */
    function Snapshot(): (s: State)
      reads this, mem
    {
      State(mem[..], r8, r32, out)
    }

    constructor (bytecode: seq<byte>)
      ensures fresh(mem) && Snapshot() == Init(bytecode)
    {
      mem := new byte[|bytecode|](i requires 0 <= i < |bytecode| => bytecode[i]);
      r8 := [0, 0, 0, 0, 0, 0, 0];
      r32 := [0, 0, 0, 0, 0, 0, 0];
      out := [];
    }

    /** `set_pc`. */
    method SetPc(v: int)
      modifies this
      ensures mem == old(mem)
      ensures Snapshot() == WithPc(old(Snapshot()), v)
    {
      r32 := r32[6 := v % U32_MOD];
    }

    /** `read8`. */
    function Read8(reg: int): (v: byte)
      reads this, mem
      ensures v == Reg8(Snapshot(), reg)
    {
      if 1 <= reg <= 6 then r8[reg]
      else if reg == 7 then
        var a := (r32[5] + r8[3]) % U32_MOD;
        if a < mem.Length then mem[a] else 0
      else 0
    }

    /** `write8`: register store, or a store into memory through id 7. */
    method Write8(reg: int, v: int)
      modifies this, mem
      ensures mem == old(mem)
      ensures Snapshot() == With8(old(Snapshot()), reg, v)
    {
      var v := v % 256;
      if 1 <= reg <= 6 {
        r8 := r8[reg := v];
      } else if reg == 7 {
        Helpers.WriteU8(mem, (r32[5] + r8[3]) % U32_MOD, v);
      }
    }

    /** `read32`. */
    function Read32(reg: int): (v: u32)
      reads this
      ensures v == Reg32(Snapshot(), reg)
    {
      if 1 <= reg <= 6 then r32[reg] else 0
    }

    /** `write32`. */
    method Write32(reg: int, v: int)
      modifies this
      ensures mem == old(mem)
      ensures Snapshot() == With32(old(Snapshot()), reg, v)
    {
      if 1 <= reg <= 6 {
        r32 := r32[reg := v % U32_MOD];
      }
    }

    /** One pass of the `while True` body, in the source's order of tests. */
    method Cycle() returns (sig: Signal)
      modifies this, mem
      ensures mem == old(mem)
      ensures sig == SignalOf(Step(old(Snapshot())))
      ensures sig == Continue ==> Snapshot() == Step(old(Snapshot())).next
      ensures sig != Continue ==> Snapshot() == old(Snapshot())
    {
      var n := mem.Length;
      var addr := r32[6];
      if addr >= n {
        return Break;
      }
      var op := mem[addr];
      if op == 0x01 {
        return Signal.Halt;
      }
      if op == 0x02 || 0xC1 <= op <= 0xC4 {
        OneByteOp(op, addr);
        return Continue;
      }
      if op == 0xE1 || op == 0x21 || op == 0x22 {
        sig := AptrOrJump(op, addr);
        return;
      }
      if op / 64 == 1 {
        sig := Move8(op, addr);
        return;
      }
      if op / 64 == 2 {
        sig := Move32(op, addr);
        return;
      }
      return Raise(op, addr);
    }

    /** OUT, CMP, ADD, SUB and XOR: one byte, registers and output only. */
    method OneByteOp(op: byte, addr: u32)
      requires addr == r32[6] && addr < mem.Length && mem[addr] == op
      requires op == 0x02 || 0xC1 <= op <= 0xC4
      modifies this
      ensures mem == old(mem)
      ensures Step(old(Snapshot())).Next? && Snapshot() == Step(old(Snapshot())).next
    {
      if op == 0x02 {
        out := out + [r8[1]];
      } else if op == 0xC1 {
        r8 := r8[6 := if r8[1] != r8[2] then 1 else 0];
      } else if op == 0xC2 {
        r8 := r8[1 := (r8[1] as int + r8[2]) % 256];
      } else if op == 0xC3 {
        r8 := r8[1 := (r8[1] as int - r8[2]) % 256];
      } else {
        r8 := r8[1 := Xor(r8[1], r8[2])];
      }
      SetPc(addr + 1);
    }

    /** APTR, JEZ and JNZ: a stop when the operand is cut off, otherwise
        ptr or the program counter moves. */
    method AptrOrJump(op: byte, addr: u32) returns (sig: Signal)
      requires addr == r32[6] && addr < mem.Length && mem[addr] == op
      requires op == 0xE1 || op == 0x21 || op == 0x22
      modifies this
      ensures mem == old(mem)
      ensures sig == SignalOf(Step(old(Snapshot())))
      ensures sig == Continue ==> Snapshot() == Step(old(Snapshot())).next
      ensures sig != Continue ==> Snapshot() == old(Snapshot())
    {
      var n := mem.Length;
      if op == 0xE1 {
        if addr + 2 > n {
          return Break;
        }
        var imm8 := mem[addr + 1];
        r32 := r32[5 := (r32[5] + imm8) % U32_MOD];
        SetPc(addr + 2);
        return Continue;
      }
      if addr + 5 > n {
        return Break;
      }
      var imm32 := Helpers.ReadU32Le(mem[..], addr + 1);
      if (op == 0x21) == (r8[6] == 0) {
        SetPc(imm32);
      } else {
        SetPc(addr + 5);
      }
      return Continue;
    }

    /** MV and MVI: an 8-bit move, possibly through pseudo-register 7. */
    method Move8(op: byte, addr: u32) returns (sig: Signal)
      requires addr == r32[6] && addr < mem.Length && mem[addr] == op && op / 64 == 1
      modifies this, mem
      ensures mem == old(mem)
      ensures sig == SignalOf(Step(old(Snapshot())))
      ensures sig == Continue ==> Snapshot() == Step(old(Snapshot())).next
      ensures sig != Continue ==> Snapshot() == old(Snapshot())
    {
      var dest, src := (op / 8) % 8, op % 8;
      if src == 0 {
        if addr + 2 > mem.Length {
          return Break;
        }
        var imm8 := mem[addr + 1];
        Write8(dest, imm8);
        SetPc(addr + 2);
      } else {
        var v := Read8(src);
        Write8(dest, v);
        SetPc(addr + 1);
      }
      return Continue;
    }

    /** MV32 and MVI32: a 32-bit move; a move into pc is the jump itself. */
    method Move32(op: byte, addr: u32) returns (sig: Signal)
      requires addr == r32[6] && addr < mem.Length && mem[addr] == op && op / 64 == 2
      modifies this
      ensures mem == old(mem)
      ensures sig == SignalOf(Step(old(Snapshot())))
      ensures sig == Continue ==> Snapshot() == Step(old(Snapshot())).next
      ensures sig != Continue ==> Snapshot() == old(Snapshot())
    {
      var dest, src := (op / 8) % 8, op % 8;
      if src == 0 {
        if addr + 5 > mem.Length {
          return Break;
        }
        var imm32 := Helpers.ReadU32Le(mem[..], addr + 1);
        Write32(dest, imm32);
        if dest != 6 {
          SetPc(addr + 5);
        }
      } else {
        var v := Read32(src);
        Write32(dest, v);
        if dest != 6 {
          SetPc(addr + 1);
        }
      }
      return Continue;
    }

    /** The dispatch loop, for at most `fuel` passes. */
    method Run(fuel: nat) returns (outcome: Outcome)
      modifies this, mem
      ensures outcome == RunFor(old(Snapshot()), fuel)
    {
      var steps := 0;
      while steps < fuel
        invariant mem == old(mem) && steps <= fuel
        invariant RunFor(Snapshot(), fuel - steps) == RunFor(old(Snapshot()), fuel)
        decreases fuel - steps
      {
        var sig := Cycle();
        match sig {
          case Continue =>
          case Halt => return Halted(out);
          case Break => return Stopped(out);
          case Raise(op, pc) => return Faulted(op, pc);
        }
        steps := steps + 1;
      }
      return OutOfFuel(Snapshot());
    }
  }

  /** `run_tomtel_vm`: a fresh machine over a copy of the bytecode, run for
      at most `fuel` passes. */
  method RunTomtelVm(bytecode: seq<byte>, fuel: nat) returns (outcome: Outcome)
    ensures outcome == Execute(bytecode, fuel)
  {
    var m := new Machine(bytecode);
    outcome := m.Run(fuel);
  }
}
