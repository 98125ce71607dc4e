/** The instruction switch of the emulator in src/libicache/icachec.c (`Emulate`).

    Registers are 32-bit words; REG_LO and REG_HI follow the 32 general registers.  An
    instruction yields new registers, new memory and a control effect; the emulator loop in
    module ICache turns the control effect into the next PC.
 */
module Mips {
  import opened Words

  type Byte = b: nat | b < 256

  type Memory = map<Word, Byte>

  type Registers = r: seq<Word> | |r| == 34 witness seq(34, _ => 0)

  const LO := 32
  const HI := 33
  const RA := 31

  datatype Reason = Break | Trap | Overflow | InvalidInstruction

  datatype Control =
    | Next                  // fall through
    | Branch(target: Word)  // taken: run the delay slot, then go to target
    | Nullify               // branch-likely not taken: skip the delay slot
    | Skip(count: nat)      // system call: skip `count` instructions
    | Stop(reason: Reason)

  datatype Effect = Effect(regs: Registers, mem: Memory, control: Control)

  /** What a system call does: any registers, any memory, and a count of skipped instructions. */
  datatype SysResult = SysResult(regs: Registers, mem: Memory, skip: nat)

  // ---- words ----

  function U(x: int): Word { x % 0x1_0000_0000 }

  /** A word read as a signed integer. */
  function Signed(x: int): int { if x < 0x8000_0000 then x else x - 0x1_0000_0000 }

  function SignExtend16(x: int): int { if x % 0x1_0000 < 0x8000 then x % 0x1_0000 else x % 0x1_0000 - 0x1_0000 }

  function SignExtend8(x: int): int { if x % 256 < 128 then x % 256 else x % 256 - 256 }

  function Not(x: Word): Word { var n: int := x; 0xffff_ffff - n }

  function Flag(b: bool): Word { if b then 1 else 0 }

  function ShiftRightArithm(x: Word, c: nat): int
  {
    if x < 0x8000_0000 then Shr(x, c) else 0xffff_ffff - Shr(Not(x), c)
  }

  function RotateRight(x: Word, c: nat): nat
    requires c <= 31
  {
    Or(Shr(x, c), Shl32(Shl32(x, 31 - c), 1))
  }

  function CountLeadingZeroes(x: Word): nat
    decreases 0x1_0000_0000 - x
  {
    if x == 0 then 32 else if x >= 0x8000_0000 then 0 else 1 + CountLeadingZeroes(2 * x)
  }

  /** C's signed division and remainder truncate toward zero. */
  function TruncDiv(a: int, b: int): int
    requires b != 0
  {
    if a >= 0 then (if b > 0 then a / b else -(a / -b)) else (if b > 0 then -(-a / b) else -a / -b)
  }

  // ---- instruction fields ----

  function Op(i: Word): nat { i / 0x400_0000 }
  function R1(i: Word): (r: nat) ensures r < 32 { i / 0x20_0000 % 32 }
  function R2(i: Word): (r: nat) ensures r < 32 { i / 0x1_0000 % 32 }
  function R3(i: Word): (r: nat) ensures r < 32 { i / 0x800 % 32 }
  function Shft(i: Word): (r: nat) ensures r < 32 { i / 64 % 32 }
  function Fxn(i: Word): nat { i % 64 }
  function Imm(i: Word): Word { i % 0x1_0000 }
  function Simm(i: Word): int { SignExtend16(i) }
  function JumpTarget(i: Word): Word { i % 0x400_0000 }

  // ---- memory ----

  function ReadByte(mem: Memory, a: int): Byte { if U(a) in mem then mem[U(a)] else 0 }

  function ReadHalfWord(mem: Memory, a: int): Word { ReadByte(mem, a) + 256 * ReadByte(mem, a + 1) }

  function ReadWord(mem: Memory, a: int): Word
  {
    ReadHalfWord(mem, a) + 0x1_0000 * ReadHalfWord(mem, a + 2)
  }

  function WriteByte(mem: Memory, a: int, v: nat): Memory { mem[U(a) := v % 256] }

  function WriteHalfWord(mem: Memory, a: int, v: nat): Memory
  {
    WriteByte(WriteByte(mem, a, v), a + 1, v / 256)
  }

  function WriteWord(mem: Memory, a: int, v: nat): Memory
  {
    WriteHalfWord(WriteHalfWord(mem, a, v), a + 2, v / 0x1_0000)
  }

  // ---- execution ----

  function Set(r: Registers, k: nat, v: int): Registers
    requires k < 34
  {
    r[k := U(v)]
  }

  function Put(r: Registers, mem: Memory, k: nat, v: int): Effect
    requires k < 34
  {
    Effect(Set(r, k, v), mem, Next)
  }

  /** Write a 64-bit value, given as any integer, to HI:LO. */
  function SetHiLo(r: Registers, p: int): Registers
  {
    Set(Set(r, LO, p), HI, p / 0x1_0000_0000)
  }

  /** `madd`: add the low words, carry into HI by hand, then add the high words. */
  function AddHiLo(r: Registers, p: int): Registers
  {
    var lo: int, hi: int, pl: int, ph: int := r[LO], r[HI], U(p), U(p / 0x1_0000_0000);
    var hi': int := if lo > 0xffff_ffff - pl then U(hi + 1) else hi;
    Set(Set(r, LO, lo + pl), HI, hi' + ph)
  }

  function SubHiLo(r: Registers, p: int): Registers
  {
    var lo: int, hi: int, pl: int, ph: int := r[LO], r[HI], U(p), U(p / 0x1_0000_0000);
    var hi': int := if lo < pl then U(hi - 1) else hi;
    Set(Set(r, LO, lo - pl), HI, hi' - ph)
  }

  predicate AddOverflow(a: nat, b: nat)
  {
    && And(Xor(Xor(a, b), 0x8000_0000), 0x8000_0000) != 0
    && And(Xor(U(a + b), a), 0x8000_0000) != 0
  }

  predicate SubOverflow(a: nat, b: nat)
  {
    && And(Xor(a, b), 0x8000_0000) != 0
    && And(Xor(U(a - b), a), 0x8000_0000) != 0
  }

  function TrapIf(r: Registers, mem: Memory, c: bool): Effect
  {
    Effect(r, mem, if c then Stop(Trap) else Next)
  }

  /** A conditional branch relative to the delay slot. */
  function BranchIf(r: Registers, mem: Memory, pc: Word, i: Word, taken: bool): Effect
  {
    Effect(r, mem, if taken then Branch(U(pc + 4 + 4 * Simm(i))) else Next)
  }

  function BranchLikelyIf(r: Registers, mem: Memory, pc: Word, i: Word, taken: bool): Effect
  {
    Effect(r, mem, if taken then Branch(U(pc + 4 + 4 * Simm(i))) else Nullify)
  }

  function Invalid(r: Registers, mem: Memory): Effect { Effect(r, mem, Stop(InvalidInstruction)) }

  /** Opcode 0. */
  function ExecSpecial(i: Word, pc: Word, r: Registers, mem: Memory, sys: SysResult): Effect
  {
    var a: int, b: int, d := r[R1(i)], r[R2(i)], R3(i);
    match Fxn(i)
    case 0 => Put(r, mem, d, Shl(b, Shft(i)))                                         // sll
    case 2 =>
      if R1(i) == 0 then Put(r, mem, d, Shr(b, Shft(i)))                              // srl
      else if R1(i) == 1 then Put(r, mem, d, RotateRight(b, Shft(i)))                 // rotr
      else Invalid(r, mem)
    case 3 => Put(r, mem, d, ShiftRightArithm(b, Shft(i)))                            // sra
    case 4 => Put(r, mem, d, Shl(b, a % 32))                                          // sllv
    case 6 =>
      if Shft(i) == 0 then Put(r, mem, d, Shr(b, a % 32))                             // srlv
      else if Shft(i) == 1 then Put(r, mem, d, RotateRight(b, a % 32))                // rotrv
      else Invalid(r, mem)
    case 7 => Put(r, mem, d, ShiftRightArithm(b, a % 32))                             // srav
    case 8 => Effect(r, mem, Branch(a))                                               // jr
    case 9 => var s := Set(r, d, pc + 8); Effect(s, mem, Branch(s[R1(i)]))            // jalr
    case 10 => if b == 0 then Put(r, mem, d, a) else Effect(r, mem, Next)             // movz
    case 11 => if b != 0 then Put(r, mem, d, a) else Effect(r, mem, Next)             // movn
    case 12 => Effect(sys.regs, sys.mem, Skip(sys.skip))                              // syscall
    case 13 => Effect(r, mem, Stop(Break))                                            // break
    case 16 => Put(r, mem, d, r[HI])                                                  // mfhi
    case 17 => Put(r, mem, HI, a)                                                     // mthi
    case 18 => Put(r, mem, d, r[LO])                                                  // mflo
    case 19 => Put(r, mem, LO, a)                                                     // mtlo
    case 24 => Effect(SetHiLo(r, Signed(a) * Signed(b)), mem, Next)                   // mult
    case 25 => Effect(SetHiLo(r, a * b), mem, Next)                                   // multu
    case 26 =>                                                                        // div
      if b == 0 || (a == 0x8000_0000 && b == 0xffff_ffff) then Effect(r, mem, Next)
      else
        var q := TruncDiv(Signed(a), Signed(b));
        Effect(Set(Set(r, LO, q), HI, Signed(a) - q * Signed(b)), mem, Next)
    case 27 =>                                                                        // divu
      if b == 0 then Effect(r, mem, Next) else Effect(Set(Set(r, LO, a / b), HI, a % b), mem, Next)
    case 32 =>                                                                        // add
      if AddOverflow(a, b) then Effect(r, mem, Stop(Overflow)) else Put(r, mem, d, a + b)
    case 33 => Put(r, mem, d, a + b)                                                  // addu
    case 34 =>                                                                        // sub
      if SubOverflow(a, b) then Effect(r, mem, Stop(Overflow)) else Put(r, mem, d, a - b)
    case 35 => Put(r, mem, d, a - b)                                                  // subu
    case 36 => Put(r, mem, d, And(a, b))                                              // and
    case 37 => Put(r, mem, d, Or(a, b))                                               // or
    case 38 => Put(r, mem, d, Xor(a, b))                                              // xor
    case 39 => Put(r, mem, d, Not(U(Or(a, b))))                                       // nor
    case 42 => Put(r, mem, d, Flag(Signed(a) < Signed(b)))                            // slt
    case 43 => Put(r, mem, d, Flag(a < b))                                            // sltu
    case 48 => TrapIf(r, mem, Signed(a) >= Signed(b))                                 // tge
    case 49 => TrapIf(r, mem, a >= b)                                                 // tgeu
    case 50 => TrapIf(r, mem, Signed(a) < Signed(b))                                  // tlt
    case 51 => TrapIf(r, mem, a < b)                                                  // tltu
    case 52 => TrapIf(r, mem, a == b)                                                 // teq
    case 53 => TrapIf(r, mem, a != b)                                                 // tne
    case _ => Invalid(r, mem)
  }

  /** Opcode 1: branches on the sign of a register, and traps with an immediate. */
  function ExecRegImm(i: Word, pc: Word, r: Registers, mem: Memory): Effect
  {
    var a := r[R1(i)];
    var link := Set(r, RA, pc + 8);
    var la := link[R1(i)];  // the source sets RA before it tests the register
    match R2(i)
    case 0 => BranchIf(r, mem, pc, i, Signed(a) < 0)                 // bltz
    case 1 => BranchIf(r, mem, pc, i, Signed(a) >= 0)                // bgez
    case 2 => BranchLikelyIf(r, mem, pc, i, Signed(a) < 0)           // bltzl
    case 3 => BranchLikelyIf(r, mem, pc, i, Signed(a) >= 0)          // bgezl
    case 8 => TrapIf(r, mem, Signed(a) >= Simm(i))                   // tgei
    case 9 => TrapIf(r, mem, a >= U(Simm(i)))                        // tgeiu
    case 10 => TrapIf(r, mem, Signed(a) < Simm(i))                   // tlti
    case 11 => TrapIf(r, mem, a < U(Simm(i)))                        // tltiu
    case 12 => TrapIf(r, mem, a == U(Simm(i)))                       // teqi
    case 14 => TrapIf(r, mem, a != U(Simm(i)))                       // tnei
    case 16 => BranchIf(link, mem, pc, i, Signed(la) < 0)            // bltzal
    case 17 => BranchIf(link, mem, pc, i, Signed(la) >= 0)           // bgezal
    case 18 => BranchLikelyIf(link, mem, pc, i, Signed(la) < 0)      // bltzall
    case 19 => BranchLikelyIf(link, mem, pc, i, Signed(la) >= 0)     // bgezall
    case _ => Invalid(r, mem)
  }

  /** Opcode 28. */
  function ExecSpecial2(i: Word, r: Registers, mem: Memory): Effect
  {
    var a: int, b: int, d := r[R1(i)], r[R2(i)], R3(i);
    match Fxn(i)
    case 0 => Effect(AddHiLo(r, Signed(a) * Signed(b)), mem, Next)   // madd
    case 1 => Effect(AddHiLo(r, a * b), mem, Next)                   // maddu
    case 2 => Put(r, mem, d, a * b)                                  // mul
    case 4 => Effect(SubHiLo(r, Signed(a) * Signed(b)), mem, Next)   // msub
    case 5 => Effect(SubHiLo(r, a * b), mem, Next)                   // msubu
    case 32 => Put(r, mem, d, CountLeadingZeroes(b))                 // clz
    case 33 => Put(r, mem, d, CountLeadingZeroes(Not(b)))            // clo
    case _ => Invalid(r, mem)
  }

  /** `(0xFFFFFFFF >> (32 - size)) << pos` */
  function FieldMask(pos: nat, size: nat): nat
    requires size <= 32
  {
    Shl32(Shr(0xffff_ffff, 32 - size), pos)
  }

  /** Opcode 31. */
  function ExecSpecial3(i: Word, r: Registers, mem: Memory): Effect
  {
    var a: int, b: int, t, d, pos := r[R1(i)], r[R2(i)], R2(i), R3(i), Shft(i);
    match Fxn(i)
    case 0 =>                                                        // ext
      if pos + d <= 31 then Put(r, mem, t, Shr(And(a, FieldMask(pos, d + 1)), pos))
      else Effect(r, mem, Next)
    case 4 =>                                                        // ins
      if d >= pos then
        var mask := U(FieldMask(pos, d - pos + 1));
        Put(r, mem, t, Or(And(b, Not(mask)), And(Shl32(a, pos), mask)))
      else Effect(r, mem, Next)
    case 32 =>
      if pos == 2 then                                               // wsbh
        Put(r, mem, d, b % 256 * 256 + b / 256 % 256 + b / 0x1_0000 % 256 * 0x100_0000 + b / 0x100_0000 * 0x1_0000)
      else if pos == 16 then Put(r, mem, d, SignExtend8(b))          // seb
      else if pos == 24 then Put(r, mem, d, SignExtend16(b))         // seh
      else Invalid(r, mem)
    case _ => Invalid(r, mem)
  }

  /** Opcodes 8 to 15: arithmetic with an immediate operand. */
  function ExecImmediate(i: Word, r: Registers, mem: Memory): Effect
  {
    var a: int, t := r[R1(i)], R2(i);
    match Op(i)
    case 8 =>                                                        // addi
      if AddOverflow(a, U(Simm(i))) then Effect(r, mem, Stop(Overflow)) else Put(r, mem, t, a + Simm(i))
    case 9 => Put(r, mem, t, a + Simm(i))                            // addiu
    case 10 => Put(r, mem, t, Flag(Signed(a) < Simm(i)))             // slti
    case 11 => Put(r, mem, t, Flag(a < Imm(i)))                      // sltiu, zero-extended
    case 12 => Put(r, mem, t, And(a, Imm(i)))                        // andi
    case 13 => Put(r, mem, t, Or(a, Imm(i)))                         // ori
    case 14 => Put(r, mem, t, Xor(a, Imm(i)))                        // xori
    case 15 => Put(r, mem, t, Imm(i) * 0x1_0000)                     // lui
    case _ => Invalid(r, mem)
  }

  function LoadLeft(b: Word, hi: Byte, lo: Byte): nat
  {
    Or(And(b, 0xffff), Shl32(Or(Shl32(hi, 8), lo), 16))
  }

  function LoadRight(b: Word, lo: Byte, hi: Byte): nat
  {
    Or(And(b, 0xffff_0000), Or(lo, Shl32(hi, 8)))
  }

  /** Opcodes 32 to 46: loads and stores, little endian. */
  function ExecMemory(i: Word, r: Registers, mem: Memory): Effect
  {
    var base: int, t := r[R1(i)], R2(i);
    var b: int, ad := r[t], base + Simm(i);
    match Op(i)
    case 32 => Put(r, mem, t, SignExtend8(ReadByte(mem, ad)))        // lb
    case 33 => Put(r, mem, t, SignExtend16(ReadHalfWord(mem, ad)))   // lh
    case 34 =>                                                       // lwl
      Put(r, mem, t, LoadLeft(b, ReadByte(mem, ad), ReadByte(mem, ad - 1)))
    case 35 => Put(r, mem, t, ReadWord(mem, ad))                     // lw
    case 36 => Put(r, mem, t, ReadByte(mem, ad))                     // lbu
    case 37 => Put(r, mem, t, ReadHalfWord(mem, ad))                 // lhu
    case 38 =>                                                       // lwr
      Put(r, mem, t, LoadRight(b, ReadByte(mem, ad), ReadByte(mem, ad + 1)))
    case 40 => Effect(r, WriteByte(mem, ad, b), Next)                // sb
    case 41 => Effect(r, WriteHalfWord(mem, ad, b), Next)            // sh
    case 42 =>                                                       // swl
      Effect(r, WriteByte(WriteByte(mem, ad, Shr(b, 24)), ad - 1, Shr(b, 16)), Next)
    case 43 => Effect(r, WriteWord(mem, ad, b), Next)                // sw
    case 46 =>                                                       // swr
      Effect(r, WriteByte(WriteByte(mem, ad, b), ad + 1, Shr(b, 8)), Next)
    case _ => Invalid(r, mem)
  }

  /** One instruction. */
  function Exec(i: Word, pc: Word, r: Registers, mem: Memory, sys: SysResult): Effect
  {
    var a: int, b: int := r[R1(i)], r[R2(i)];
    var region := pc / 0x1000_0000 * 0x1000_0000;
    match Op(i)
    case 0 => ExecSpecial(i, pc, r, mem, sys)
    case 1 => ExecRegImm(i, pc, r, mem)
    case 2 => Effect(r, mem, Branch(region + 4 * JumpTarget(i)))                  // j
    case 3 => Effect(Set(r, RA, pc + 8), mem, Branch(region + 4 * JumpTarget(i))) // jal
    case 4 => BranchIf(r, mem, pc, i, a == b)                                     // beq
    case 5 => BranchIf(r, mem, pc, i, a != b)                                     // bne
    case 6 => BranchIf(r, mem, pc, i, Signed(a) <= 0)                             // blez
    case 7 => BranchIf(r, mem, pc, i, Signed(a) > 0)                              // bgtz
    case 20 => BranchLikelyIf(r, mem, pc, i, a == b)                              // beql
    case 21 => BranchLikelyIf(r, mem, pc, i, a != b)                              // bnel
    case 22 => BranchLikelyIf(r, mem, pc, i, Signed(a) <= 0)                      // blezl
    case 23 => BranchLikelyIf(r, mem, pc, i, Signed(a) > 0)                       // bgtzl
    case 28 => ExecSpecial2(i, r, mem)
    case 31 => ExecSpecial3(i, r, mem)
    case _ => if Op(i) < 16 then ExecImmediate(i, r, mem) else ExecMemory(i, r, mem)
  }
}
