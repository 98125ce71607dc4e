/** Exactness of the emulator's arithmetic, field and unaligned-access instructions. */
module MipsLaws {
  import opened Words
  import opened Mips

  // ---- HI:LO ----

  function HiLo(r: Registers): nat { (r[HI] as nat) * 0x1_0000_0000 + (r[LO] as nat) }

  lemma AddHiLoExact(r: Registers, p: int)
    ensures HiLo(AddHiLo(r, p)) == (HiLo(r) + p) % 0x1_0000_0000_0000_0000
  {
    var B := 0x1_0000_0000;
    var lo: int, hi: int, pl: int, q, ph: int := r[LO], r[HI], U(p), p / B, U(p / B);
    var c := if lo + pl >= B then 1 else 0;
    var hi' := hi + c + ph;
    assert p == q * B + pl && q == q / B * B + ph;
    var s := AddHiLo(r, p);
    assert s[LO] == lo + pl - c * B && s[HI] == hi' % B;
    DivModUnique(HiLo(r) + p, 0x1_0000_0000_0000_0000, q / B + hi' / B, HiLo(s));
  }

  lemma SubHiLoExact(r: Registers, p: int)
    ensures HiLo(SubHiLo(r, p)) == (HiLo(r) - p) % 0x1_0000_0000_0000_0000
  {
    var B := 0x1_0000_0000;
    var lo: int, hi: int, pl: int, q, ph: int := r[LO], r[HI], U(p), p / B, U(p / B);
    var c := if lo < pl then 1 else 0;
    var hi' := hi - c - ph;
    assert p == q * B + pl && q == q / B * B + ph;
    var s := SubHiLo(r, p);
    assert s[LO] == lo - pl + c * B && s[HI] == hi' % B;
    DivModUnique(HiLo(r) - p, 0x1_0000_0000_0000_0000, hi' / B - q / B, HiLo(s));
  }

  /** madd, maddu, msub and msubu change HI:LO by the exact product, modulo 2^64. */
  lemma MultiplyAccumulate(i: Word, pc: Word, r: Registers, mem: Memory, sys: SysResult)
    requires Op(i) == 28 && Fxn(i) in {0, 1, 4, 5}
    ensures
      var signed := Signed(r[R1(i)]) * Signed(r[R2(i)]);
      var unsigned := (r[R1(i)] as int) * (r[R2(i)] as int);
      var e := Exec(i, pc, r, mem, sys);
      && e.control == Next && e.mem == mem && e.regs[..32] == r[..32]
      && HiLo(e.regs) == (match Fxn(i)
                          case 0 => HiLo(r) + signed
                          case 1 => HiLo(r) + unsigned
                          case 4 => HiLo(r) - signed
                          case _ => HiLo(r) - unsigned) % 0x1_0000_0000_0000_0000
  {
    var signed := Signed(r[R1(i)]) * Signed(r[R2(i)]);
    var unsigned := (r[R1(i)] as int) * (r[R2(i)] as int);
    AddHiLoExact(r, signed);
    AddHiLoExact(r, unsigned);
    SubHiLoExact(r, signed);
    SubHiLoExact(r, unsigned);
  }

  // ---- overflow ----

  predicate InRange(x: int) { -0x8000_0000 <= x < 0x8000_0000 }

  /** The sign-bit test of an exclusive or. */
  lemma SignsDiffer(a: Word, b: Word)
    ensures Xor(a, b) < 0x1_0000_0000
    ensures And(Xor(a, b), 0x8000_0000) != 0 <==> (a >= 0x8000_0000) != (b >= 0x8000_0000)
  {
    Power31();
    Power32();
    XorTop(a, b, 31);
    SignBits(Xor(a, b));
  }

  lemma AddSigns(a: int, b: int)
    requires 0 <= a < 0x1_0000_0000 && 0 <= b < 0x1_0000_0000
    ensures (a >= 0x8000_0000) == (b >= 0x8000_0000) && (U(a + b) >= 0x8000_0000) != (a >= 0x8000_0000)
       <==> !InRange(Signed(a) + Signed(b))
    ensures InRange(Signed(a) + Signed(b)) ==> Signed(U(a + b)) == Signed(a) + Signed(b)
  {
  }

  lemma SubSigns(a: int, b: int)
    requires 0 <= a < 0x1_0000_0000 && 0 <= b < 0x1_0000_0000
    ensures (a >= 0x8000_0000) != (b >= 0x8000_0000) && (U(a - b) >= 0x8000_0000) != (a >= 0x8000_0000)
       <==> !InRange(Signed(a) - Signed(b))
    ensures InRange(Signed(a) - Signed(b)) ==> Signed(U(a - b)) == Signed(a) - Signed(b)
  {
  }

  /** The exclusive or of three words, the last of them the sign bit alone. */
  lemma SignsAgree(a: Word, b: Word)
    ensures And(Xor(Xor(a, b), 0x8000_0000), 0x8000_0000) != 0
       <==> (a >= 0x8000_0000) == (b >= 0x8000_0000)
  {
    Power31();
    Power32();
    XorTop(a, b, 31);
    SignsDiffer(Xor(a, b), 0x8000_0000);
  }

  lemma AddOverflowExact(a: Word, b: Word)
    ensures AddOverflow(a, b) <==> !InRange(Signed(a) + Signed(b))
    ensures InRange(Signed(a) + Signed(b)) ==> Signed(U((a as int) + b)) == Signed(a) + Signed(b)
  {
    hide And, Xor;
    SignsAgree(a, b);
    SignsDiffer(U((a as int) + b), a);
    AddSigns(a, b);
  }

  lemma SubOverflowExact(a: Word, b: Word)
    ensures SubOverflow(a, b) <==> !InRange(Signed(a) - Signed(b))
    ensures InRange(Signed(a) - Signed(b)) ==> Signed(U((a as int) - b)) == Signed(a) - Signed(b)
  {
    hide And, Xor;
    SignsDiffer(a, b);
    SignsDiffer(U((a as int) - b), a);
    SubSigns(a, b);
  }

  predicate IsAdd(i: Word) { Op(i) == 0 && Fxn(i) == 32 }
  predicate IsSub(i: Word) { Op(i) == 0 && Fxn(i) == 34 }
  predicate IsAddi(i: Word) { Op(i) == 8 }

  lemma AddTraps(i: Word, pc: Word, r: Registers, mem: Memory, sys: SysResult)
    requires IsAdd(i)
    ensures
      var exact := Signed(r[R1(i)]) + Signed(r[R2(i)]);
      var e := Exec(i, pc, r, mem, sys);
      if InRange(exact) then Signed(e.regs[R3(i)]) == exact && e == Effect(r[R3(i) := e.regs[R3(i)]], mem, Next)
      else e == Effect(r, mem, Stop(Overflow))
  {
    hide And, Xor;
    AddOverflowExact(r[R1(i)], r[R2(i)]);
  }

  lemma SubTraps(i: Word, pc: Word, r: Registers, mem: Memory, sys: SysResult)
    requires IsSub(i)
    ensures
      var exact := Signed(r[R1(i)]) - Signed(r[R2(i)]);
      var e := Exec(i, pc, r, mem, sys);
      if InRange(exact) then Signed(e.regs[R3(i)]) == exact && e == Effect(r[R3(i) := e.regs[R3(i)]], mem, Next)
      else e == Effect(r, mem, Stop(Overflow))
  {
    hide And, Xor;
    SubOverflowExact(r[R1(i)], r[R2(i)]);
  }

  lemma AddiTraps(i: Word, pc: Word, r: Registers, mem: Memory, sys: SysResult)
    requires IsAddi(i)
    ensures
      var exact := Signed(r[R1(i)]) + Simm(i);
      var e := Exec(i, pc, r, mem, sys);
      if InRange(exact) then Signed(e.regs[R2(i)]) == exact && e == Effect(r[R2(i) := e.regs[R2(i)]], mem, Next)
      else e == Effect(r, mem, Stop(Overflow))
  {
    hide And, Xor;
    var a: int, s := r[R1(i)], Simm(i);
    AddOverflowExact(a, U(s));
    SumOfU(a, s);
    assert ExecImmediate(i, r, mem) ==
      if AddOverflow(a, U(s)) then Effect(r, mem, Stop(Overflow)) else Put(r, mem, R2(i), a + s);
  }

  lemma SumOfU(a: int, s: int)
    requires -0x8000 <= s < 0x8000
    ensures Signed(U(s)) == s && U(a + U(s)) == U(a + s)
  {
  }

  /** add, addi and sub stop with an overflow exactly when the signed result does not fit, and change
      nothing then; else they change the one register. */
  lemma OverflowTraps(i: Word, pc: Word, r: Registers, mem: Memory, sys: SysResult)
    requires IsAdd(i) || IsSub(i) || IsAddi(i)
    ensures
      var a, b := Signed(r[R1(i)]), Signed(r[R2(i)]);
      var exact := if IsAdd(i) then a + b else if IsSub(i) then a - b else a + Simm(i);
      var e := Exec(i, pc, r, mem, sys);
      var d := if IsAddi(i) then R2(i) else R3(i);
      if InRange(exact) then Signed(e.regs[d]) == exact && e == Effect(r[d := e.regs[d]], mem, Next)
      else e == Effect(r, mem, Stop(Overflow))
  {
    if IsAdd(i) {
      AddTraps(i, pc, r, mem, sys);
    } else if IsSub(i) {
      SubTraps(i, pc, r, mem, sys);
    } else {
      AddiTraps(i, pc, r, mem, sys);
    }
  }

  // ---- bit fields ----

  /** Bits pos..pos+size of a word. */
  function Field(x: nat, pos: nat, size: nat): nat { Low(Shr(x, pos), size) }

  lemma {:induction false} ShrOr(x: nat, y: nat, n: nat)
    ensures Shr(Or(x, y), n) == Or(Shr(x, n), Shr(y, n))
    decreases n
  {
    if n != 0 {
      ShrOr(x / 2, y / 2, n - 1);
      assert Or(x, y) / 2 == Or(x / 2, y / 2);
    }
  }

  lemma {:induction false} ShrAnd(x: nat, y: nat, n: nat)
    ensures Shr(And(x, y), n) == And(Shr(x, n), Shr(y, n))
    decreases n
  {
    if n != 0 {
      ShrAnd(x / 2, y / 2, n - 1);
      assert And(x, y) / 2 == And(x / 2, y / 2);
    }
  }

  lemma {:induction false} LowOr(x: nat, y: nat, n: nat)
    ensures Low(Or(x, y), n) == Or(Low(x, n), Low(y, n))
    decreases n
  {
    if n != 0 {
      LowOr(x / 2, y / 2, n - 1);
      assert Or(x, y) / 2 == Or(x / 2, y / 2);
      OrBit(x % 2, Low(x / 2, n - 1), y % 2, Low(y / 2, n - 1));
    }
  }

  lemma OrBit(a: nat, x: nat, b: nat, y: nat)
    requires a < 2 && b < 2
    ensures Or(a + 2 * x, b + 2 * y) == (if a == 1 || b == 1 then 1 else 0) + 2 * Or(x, y)
  {
    assert (a + 2 * x) / 2 == x && (b + 2 * y) / 2 == y;
  }

  lemma AndBit(a: nat, x: nat, b: nat, y: nat)
    requires a < 2 && b < 2
    ensures And(a + 2 * x, b + 2 * y) == (if a == 1 && b == 1 then 1 else 0) + 2 * And(x, y)
  {
    assert (a + 2 * x) / 2 == x && (b + 2 * y) / 2 == y;
  }

  lemma {:induction false} LowAnd(x: nat, y: nat, n: nat)
    ensures Low(And(x, y), n) == And(Low(x, n), Low(y, n))
    decreases n
  {
    if n != 0 {
      LowAnd(x / 2, y / 2, n - 1);
      assert And(x, y) / 2 == And(x / 2, y / 2);
      AndBit(x % 2, Low(x / 2, n - 1), y % 2, Low(y / 2, n - 1));
    }
  }

  lemma {:induction false} AndComm(x: nat, y: nat)
    ensures And(x, y) == And(y, x)
    decreases x
  {
    if x != 0 && y != 0 { AndComm(x / 2, y / 2); }
  }

  /** A field of an "and" or an "or" is the "and" or "or" of the fields. */
  lemma FieldOps(x: nat, y: nat, pos: nat, size: nat)
    ensures Field(And(x, y), pos, size) == And(Field(x, pos, size), Field(y, pos, size))
    ensures Field(Or(x, y), pos, size) == Or(Field(x, pos, size), Field(y, pos, size))
  {
    ShrAnd(x, y, pos);
    ShrOr(x, y, pos);
    LowAnd(Shr(x, pos), Shr(y, pos), size);
    LowOr(Shr(x, pos), Shr(y, pos), size);
  }

  lemma {:induction false} FieldAtBottom(x: nat, pos: nat, size: nat)
    ensures Low(x, pos + size) == Shl(Field(x, pos, size), pos) + Low(x, pos)
    decreases pos
  {
    if pos != 0 { FieldAtBottom(x / 2, pos - 1, size); }
  }

  lemma LowShift(x: nat, pos: nat)
    ensures Shr(Shl(x, pos), pos) == x && Low(Shl(x, pos), pos) == 0
  {
    SplitUnique(Shl(x, pos), pos, x, 0);
  }

  lemma LowAll(x: nat, n: nat)
    requires x < Shl(1, n)
    ensures Low(x, n) == x && Shr(x, n) == 0
  {
    ShlZero(n);
    SplitUnique(x, n, 0, x);
  }

  /** The mask has ones in its field, zeros elsewhere. */
  lemma MaskBits(pos: nat, size: nat)
    requires 0 < size && pos + size <= 32
    ensures FieldMask(pos, size) == Shl(1, pos + size) - Shl(1, pos) < 0x1_0000_0000
  {
    hide And, Or, Shl, Shr, Low;
    Power32();
    ShlShl(1, size, 32 - size);
    ShlAdd(Shl(1, size) - 1, 1, 32 - size);
    SplitUnique(0xffff_ffff, 32 - size, Shl(1, size) - 1, Shl(1, 32 - size) - 1);
    ShlAdd(Shl(1, size) - 1, 1, pos);
    ShlShl(1, size, pos);
    ShlGrows(1, size + pos, 32);
  }

  /** `ext` reads the field. */
  lemma ExtractExact(a: Word, pos: nat, size: nat)
    requires 0 < size && pos + size <= 32
    ensures Shr(And(a, FieldMask(pos, size)), pos) == Field(a, pos, size)
  {
    hide And, Or, Shl, Shr, Low;
    MaskBits(pos, size);
    AndMask(a, pos, pos + size);
    FieldAtBottom(a, pos, size);
    LowShift(Field(a, pos, size), pos);
  }

  /** Fields of the complement of the mask: all ones below and above, zero inside. */
  lemma NotMaskFields(pos: nat, size: nat)
    requires 0 < size && pos + size <= 32
    ensures
      var n := Not(FieldMask(pos, size));
      && Low(n, pos) == Shl(1, pos) - 1
      && Field(n, pos, size) == 0
      && Shr(n, pos + size) == Shl(1, 32 - pos - size) - 1
  {
    hide And, Or, Shl, Shr, Low;
    MaskBits(pos, size);
    Power32();
    var hi := pos + size;
    var n, top := Not(FieldMask(pos, size)), Shl(1, 32 - hi) - 1;
    ShlShl(1, 32 - hi, hi);
    ShlAdd(top, 1, hi);
    ShlShl(top, size, pos);
    SplitUnique(n, pos, Shl(top, size), Shl(1, pos) - 1);
    SplitUnique(Shl(top, size), size, top, 0);
    ShlGrows(1, pos, hi);
    SplitUnique(n, hi, top, Shl(1, pos) - 1);
  }

  /** What `a << pos` holds in the field, and below it. */
  lemma ShiftedField(a: Word, pos: nat, size: nat)
    requires 0 < size && pos + size <= 32
    ensures Field(Shl32(a, pos), pos, size) == Low(a, size)
  {
    hide And, Or, Shl, Shr, Low;
    Power32();
    SplitBy(Shl(a, pos), 32, 0x1_0000_0000);
    assert Shl32(a, pos) == Low(Shl(a, pos), 32);
    LowShift(a, pos);
    FieldAtBottom(Shl(a, pos), pos, 32 - pos);
    assert Shl32(a, pos) == Shl(Low(a, 32 - pos), pos);
    LowShift(Low(a, 32 - pos), pos);
    LowLow(a, size, 32 - pos);
  }

  lemma {:induction false} LowLow(x: nat, m: nat, n: nat)
    requires m <= n
    ensures Low(Low(x, n), m) == Low(x, m)
    decreases m
  {
    if m != 0 {
      LowLow(x / 2, m - 1, n - 1);
      assert Low(x, n) / 2 == Low(x / 2, n - 1);
    }
  }

  function Inserted(a: Word, b: Word, pos: nat, size: nat): nat
    requires 0 < size && pos + size <= 32
  {
    var mask := U(FieldMask(pos, size));
    Or(And(b, Not(mask)), And(Shl32(a, pos), mask))
  }

  lemma MaskFields(pos: nat, size: nat)
    requires 0 < size && pos + size <= 32
    ensures
      var m := FieldMask(pos, size);
      Low(m, pos) == 0 && Field(m, pos, size) == Shl(1, size) - 1 && Shr(m, pos + size) == 0
  {
    hide And, Or, Shl, Shr, Low;
    MaskBits(pos, size);
    ShlShl(1, size, pos);
    ShlAdd(Shl(1, size) - 1, 1, pos);
    SplitUnique(FieldMask(pos, size), pos, Shl(1, size) - 1, 0);
    LowAll(Shl(1, size) - 1, size);
    LowAll(FieldMask(pos, size), pos + size);
  }

  /** `ins` writes the field and keeps every other bit. */
  lemma InsertExact(a: Word, b: Word, pos: nat, size: nat)
    requires 0 < size && pos + size <= 32
    ensures Inserted(a, b, pos, size) < 0x1_0000_0000
    ensures Field(Inserted(a, b, pos, size), pos, size) == Low(a, size)
    ensures Low(Inserted(a, b, pos, size), pos) == Low(b, pos)
    ensures Shr(Inserted(a, b, pos, size), pos + size) == Shr(b, pos + size)
  {
    InsertInside(a, b, pos, size);
    InsertBelow(a, b, pos, size);
    InsertAbove(a, b, pos, size);
    WordByTop(Inserted(a, b, pos, size), b, pos + size);
  }

  lemma InsertInside(a: Word, b: Word, pos: nat, size: nat)
    requires 0 < size && pos + size <= 32
    ensures Field(Inserted(a, b, pos, size), pos, size) == Low(a, size)
  {
    hide And, Or, Shl, Shr, Low;
    var m: Word, s := U(FieldMask(pos, size)), Shl32(a, pos);
    var x, y := And(b, Not(m)), And(s, m);
    assert m == FieldMask(pos, size) by { MaskBits(pos, size); }
    ZeroBits(Low(a, size));
    ZeroBits(Field(b, pos, size));
    assert Field(x, pos, size) == 0 by {
      NotMaskFields(pos, size);
      FieldOps(b, Not(m), pos, size);
    }
    assert Field(y, pos, size) == Low(a, size) by {
      FieldOps(s, m, pos, size);
      ShiftedField(a, pos, size);
      MaskFields(pos, size);
      AndOnes(a, size);
    }
    FieldOps(x, y, pos, size);
  }

  lemma AndOnes(a: nat, n: nat)
    ensures And(Low(a, n), Shl(1, n) - 1) == Low(a, n)
  {
    AndMask(Low(a, n), 0, n);
    LowLow(a, n, n);
  }

  lemma InsertBelow(a: Word, b: Word, pos: nat, size: nat)
    requires 0 < size && pos + size <= 32
    ensures Low(Inserted(a, b, pos, size), pos) == Low(b, pos)
  {
    hide And, Or, Shl, Shr, Low;
    var m: Word, s := U(FieldMask(pos, size)), Shl32(a, pos);
    var x, y := And(b, Not(m)), And(s, m);
    assert m == FieldMask(pos, size) by { MaskBits(pos, size); }
    assert Low(x, pos) == Low(b, pos) by {
      NotMaskFields(pos, size);
      LowAnd(b, Not(m), pos);
      AndOnes(b, pos);
    }
    ZeroBits(Low(b, pos));
    ZeroBits(Low(s, pos));
    assert Low(y, pos) == 0 by {
      MaskFields(pos, size);
      LowAnd(s, m, pos);
    }
    LowOr(x, y, pos);
  }

  lemma InsertAbove(a: Word, b: Word, pos: nat, size: nat)
    requires 0 < size && pos + size <= 32
    ensures Shr(Inserted(a, b, pos, size), pos + size) == Shr(b, pos + size)
  {
    hide And, Or, Shl, Shr, Low;
    var m: Word, s, hi := U(FieldMask(pos, size)), Shl32(a, pos), pos + size;
    var x, y := And(b, Not(m)), And(s, m);
    assert m == FieldMask(pos, size) by { MaskBits(pos, size); }
    assert Shr(x, hi) == Shr(b, hi) by {
      NotMaskFields(pos, size);
      ShrAnd(b, Not(m), hi);
      TopOfWord(b, hi);
      LowAll(Shr(b, hi), 32 - hi);
      AndOnes(Shr(b, hi), 32 - hi);
    }
    ZeroBits(Shr(b, hi));
    ZeroBits(Shr(s, hi));
    assert Shr(y, hi) == 0 by {
      MaskFields(pos, size);
      ShrAnd(s, m, hi);
    }
    ShrOr(x, y, hi);
  }

  /** A number with the top of a word is a word. */
  lemma WordByTop(w: nat, b: Word, hi: nat)
    requires hi <= 32 && Shr(w, hi) == Shr(b, hi)
    ensures w < 0x1_0000_0000
  {
    hide And, Or, Shl, Shr, Low;
    Power32();
    TopOfWord(b, hi);
    Split(w, hi);
    ShlShl(1, 32 - hi, hi);
    ShlAdd(Shr(b, hi), 1, hi);
    ShlLess(Shl(1, 32 - hi), Shr(b, hi) + 1, hi);
  }

  lemma TopOfWord(b: Word, n: nat)
    requires n <= 32
    ensures Shr(b, n) < Shl(1, 32 - n)
  {
    hide And, Or, Shl, Shr, Low;
    Power32();
    Split(b, n);
    ShlShl(1, 32 - n, n);
    ShlLess(Shr(b, n), Shl(1, 32 - n), n);
  }

  lemma InsResult(i: Word, r: Registers, mem: Memory)
    requires Op(i) == 31 && Fxn(i) == 4 && R3(i) >= Shft(i)
    ensures
      var w := Inserted(r[R1(i)], r[R2(i)], Shft(i), R3(i) - Shft(i) + 1);
      w < 0x1_0000_0000 && ExecSpecial3(i, r, mem) == Effect(r[R2(i) := w], mem, Next)
  {
    hide And, Or, Shl, Shr, Low;
    InsertExact(r[R1(i)], r[R2(i)], Shft(i), R3(i) - Shft(i) + 1);
  }

  lemma ExtResult(j: Word, r: Registers, mem: Memory)
    requires Op(j) == 31 && Fxn(j) == 0 && Shft(j) + R3(j) <= 31
    ensures
      var v := Field(r[R1(j)], Shft(j), R3(j) + 1);
      v < 0x1_0000_0000 && ExecSpecial3(j, r, mem) == Effect(r[R2(j) := v], mem, Next)
  {
    hide And, Shl, Shr, Low;
    ExtractExact(r[R1(j)], Shft(j), R3(j) + 1);
    Split(Shr(r[R1(j)], Shft(j)), R3(j) + 1);
    Power32();
    ShlGrows(1, R3(j) + 1, 32);
  }

  lemma {:induction false} FieldOfZero(pos: nat, size: nat)
    ensures Field(0, pos, size) == 0
    decreases pos
  {
    if pos == 0 { LowIsMod(0, size); } else { FieldOfZero(pos - 1, size); }
  }

  /** `ins t,s,pos,size` followed by `ext u,t,pos,size` recovers the low bits of s, unless t or u is
      register 0, which the loop clears after each instruction. */
  lemma InsThenExt(i: Word, j: Word, pc: Word, r: Registers, mem: Memory, sys: SysResult)
    requires Op(i) == 31 && Fxn(i) == 4 && R3(i) >= Shft(i)
    requires Op(j) == 31 && Fxn(j) == 0 && Shft(j) == Shft(i) && R3(j) == R3(i) - Shft(i)
    requires R1(j) == R2(i)
    ensures
      var e := Exec(i, pc, r, mem, sys);
      var f := Exec(j, U(pc + 4), e.regs[0 := 0], e.mem, sys);
      e.control == Next && f.control == Next && f.mem == mem
      && f.regs[0 := 0][R2(j)] == if R2(i) == 0 || R2(j) == 0 then 0 else r[R1(i)] % Shl(1, R3(j) + 1)
  {
    hide And, Or, Shl, Shr, Low, Inserted;
    var e := Exec(i, pc, r, mem, sys);
    InsResult(i, r, mem);
    ExtResult(j, e.regs[0 := 0], e.mem);
    InsertExact(r[R1(i)], r[R2(i)], Shft(i), R3(j) + 1);
    LowIsMod(r[R1(i)], R3(j) + 1);
    FieldOfZero(Shft(j), R3(j) + 1);
  }

  lemma LowIsMod(x: nat, n: nat)
    ensures Low(x, n) == x % Shl(1, n) < Shl(1, n)
  {
    Split(x, n);
    ShlIsMul(Shr(x, n), n);
    DivModUnique(x, Shl(1, n), Shr(x, n), Low(x, n));
  }

  // ---- unaligned access ----

  /** One load or store, after which the loop clears register 0. */
  function Access(i: Word, r: Registers, mem: Memory): (Registers, Memory)
  {
    var e := ExecMemory(i, r, mem);
    (e.regs[0 := 0], e.mem)
  }

  lemma LowMask(x: Word)
    ensures And(x, 0xffff) == x % 0x1_0000 && And(x, 0xffff_0000) == x - x % 0x1_0000
  {
    Power16();
    Power32();
    SplitBy(x, 16, 0x1_0000);
    LowAll(x, 32);
    AndMask(x, 0, 16);
    AndMask(x, 16, 32);
  }

  lemma JoinBytes(hi: Byte, lo: Byte)
    ensures Or(Shl32(hi, 8), lo) == hi * 256 + lo == Or(lo, Shl32(hi, 8))
  {
    hide And, Or, Shl, Shr, Low;
    Power8();
    ShlBy(hi, 8, 256);
    OrDisjoint(hi, lo, 8);
    OrComm(Shl(hi, 8), lo);
  }

  lemma JoinHalves(hi: nat, lo: nat)
    requires hi < 0x1_0000 && lo < 0x1_0000
    ensures Or(hi * 0x1_0000, lo) == hi * 0x1_0000 + lo == Or(lo, hi * 0x1_0000)
    ensures Shl32(hi, 16) == hi * 0x1_0000
  {
    Power16();
    ShlBy(hi, 16, 0x1_0000);
    OrDisjoint(hi, lo, 16);
    OrComm(Shl(hi, 16), lo);
  }

  lemma ShrBytes(x: Word)
    ensures Shr(x, 8) == x / 0x100 && Shr(x, 16) == x / 0x1_0000 && Shr(x, 24) == x / 0x100_0000
  {
    Power8();
    Power16();
    Power24();
    SplitBy(x, 8, 0x100);
    SplitBy(x, 16, 0x1_0000);
    SplitBy(x, 24, 0x100_0000);
  }

  lemma FourAddresses(a: int)
    ensures U(a) != U(a + 1) && U(a) != U(a + 2) && U(a) != U(a + 3)
    ensures U(a + 1) != U(a + 2) && U(a + 1) != U(a + 3) && U(a + 2) != U(a + 3)
  {
  }

  /** A word is its four bytes. */
  lemma FourBytes(mem: Memory, a: int, v: nat)
    requires v < 0x1_0000_0000
    requires ReadByte(mem, a) == v % 256 && ReadByte(mem, a + 1) == v / 0x100 % 256
    requires ReadByte(mem, a + 2) == v / 0x1_0000 % 256 && ReadByte(mem, a + 3) == v / 0x100_0000 % 256
    ensures ReadWord(mem, a) == v
  {
    hide ReadByte;
    var h := v / 0x1_0000;
    TwoBytes(v);
    TwoBytes(h);
    assert ReadHalfWord(mem, a) == v % 0x1_0000;
    assert a + 2 + 1 == a + 3;
    ThirdByte(v);
    assert ReadHalfWord(mem, a + 2) == h;
  }

  lemma TwoBytes(x: nat)
    ensures x % 256 + 256 * (x / 256 % 256) == x % 0x1_0000
  {
    var q, c := x / 256, x % 256;
    var a, b := q / 256, q % 256;
    DivModUnique(x, 0x1_0000, a, 256 * b + c);
  }

  lemma ThirdByte(v: nat)
    requires v < 0x1_0000_0000
    ensures v / 0x100_0000 == v / 0x1_0000 / 256 && v / 0x1_0000 < 0x1_0000
  {
  }

  /** swl and swr at A+3 and A lay the word out little endian, at any alignment. */
  lemma StoreUnaligned(i: Word, j: Word, r: Registers, mem: Memory)
    requires Op(i) == 42 && Op(j) == 46 && R1(i) == R1(j) && R2(i) == R2(j)
    requires Simm(i) == Simm(j) + 3 && r[0] == 0
    ensures
      var (r1, m1) := Access(i, r, mem);
      var (r2, m2) := Access(j, r1, m1);
      var a := r[R1(j)] as int + Simm(j);
      r2 == r && ReadWord(m2, a) == r[R2(j)] && SameElsewhere(mem, m2, a)
  {
    hide Or, And, Shr, SameElsewhere, ReadWord, WriteByte;
    var base: int, v: nat := r[R1(j)], r[R2(j)];
    var a := base + Simm(j);
    var m1 := WriteByte(WriteByte(mem, a + 3, Shr(v, 24)), a + 2, Shr(v, 16));
    var m2 := WriteByte(WriteByte(m1, a, v), a + 1, Shr(v, 8));
    assert r[0 := 0] == r;
    assert Access(i, r, mem) == (r, m1);
    assert Access(j, r, m1) == (r, m2);
    FourWrites(mem, a, v);
  }

  /** Memory may differ in the four bytes from a on, and nowhere else. */
  ghost predicate SameElsewhere(mem: Memory, after: Memory, a: int)
  {
    forall b | U(b) != U(a) && U(b) != U(a + 1) && U(b) != U(a + 2) && U(b) != U(a + 3) ::
      ReadByte(after, b) == ReadByte(mem, b)
  }

  lemma FourWrites(mem: Memory, a: int, v: Word)
    ensures
      var m1 := WriteByte(WriteByte(mem, a + 3, Shr(v, 24)), a + 2, Shr(v, 16));
      var m2 := WriteByte(WriteByte(m1, a, v), a + 1, Shr(v, 8));
      ReadWord(m2, a) == v && SameElsewhere(mem, m2, a)
  {
    hide Shr, U;
    ShrBytes(v);
    var m1 := WriteByte(WriteByte(mem, a + 3, Shr(v, 24)), a + 2, Shr(v, 16));
    var m2 := WriteByte(WriteByte(m1, a, v), a + 1, Shr(v, 8));
    FourAddresses(a);
    FourBytes(m2, a, v);
  }

  lemma LoadLeftValue(b: Word, hi: Byte, lo: Byte)
    ensures LoadLeft(b, hi, lo) == ((hi as int) * 256 + lo) * 0x1_0000 + (b as int) % 0x1_0000
  {
    hide And, Or, Shl, Shr, Low;
    var h: int, l: int, t: int := hi, lo, b;
    JoinBytes(hi, lo);
    LowMask(b);
    JoinHalves(h * 256 + l, t % 0x1_0000);
  }

  lemma LoadRightValue(b: Word, lo: Byte, hi: Byte)
    ensures LoadRight(b, lo, hi) == (b as int) / 0x1_0000 * 0x1_0000 + ((hi as int) * 256 + lo)
  {
    hide And, Or, Shl, Shr, Low;
    var h: int, l: int, t: int := hi, lo, b;
    var q, m := t / 0x1_0000, t % 0x1_0000;
    JoinBytes(hi, lo);
    LowMask(b);
    assert t == q * 0x1_0000 + m;
    assert And(b, 0xffff_0000) == q * 0x1_0000;
    JoinHalves(q, h * 256 + l);
  }

  lemma LeftThenRight(t: Word, b3: Byte, b2: Byte, b1: Byte, b0: Byte)
    ensures LoadLeft(t, b3, b2) < 0x1_0000_0000
    ensures LoadRight(LoadLeft(t, b3, b2), b0, b1)
         == (b3 as int) * 0x100_0000 + (b2 as int) * 0x1_0000 + (b1 as int) * 0x100 + b0
  {
    hide LoadLeft, LoadRight;
    LoadLeftValue(t, b3, b2);
    LoadRightValue(LoadLeft(t, b3, b2), b0, b1);
    HighHalf((b3 as int) * 256 + b2, (t as int) % 0x1_0000);
  }

  lemma HighHalf(h: int, l: int)
    requires 0 <= l < 0x1_0000
    ensures (h * 0x1_0000 + l) / 0x1_0000 == h
  {
  }

  lemma LoadValue(r: Registers, mem: Memory, a: int, t: nat)
    requires t < 32
    ensures
      var x := LoadLeft(r[t], ReadByte(mem, a + 3), ReadByte(mem, a + 2));
      var r1 := Set(r, t, x);
      Set(r1, t, LoadRight(r1[t], ReadByte(mem, a), ReadByte(mem, a + 1))) == r[t := ReadWord(mem, a)]
  {
    hide LoadLeft, LoadRight;
    LeftThenRight(r[t], ReadByte(mem, a + 3), ReadByte(mem, a + 2), ReadByte(mem, a + 1), ReadByte(mem, a));
  }

  lemma LwlStep(i: Word, r: Registers, mem: Memory)
    requires Op(i) == 34 && r[0] == 0 && R2(i) != 0
    ensures
      var a := r[R1(i)] as int + Simm(i);
      Access(i, r, mem) == (Set(r, R2(i), LoadLeft(r[R2(i)], ReadByte(mem, a), ReadByte(mem, a - 1))), mem)
  {
    var a := r[R1(i)] as int + Simm(i);
    var s := Set(r, R2(i), LoadLeft(r[R2(i)], ReadByte(mem, a), ReadByte(mem, a - 1)));
    assert s[0 := 0] == s;
  }

  lemma LwrStep(i: Word, r: Registers, mem: Memory)
    requires Op(i) == 38 && r[0] == 0 && R2(i) != 0
    ensures
      var a := r[R1(i)] as int + Simm(i);
      Access(i, r, mem) == (Set(r, R2(i), LoadRight(r[R2(i)], ReadByte(mem, a), ReadByte(mem, a + 1))), mem)
  {
    var a := r[R1(i)] as int + Simm(i);
    var s := Set(r, R2(i), LoadRight(r[R2(i)], ReadByte(mem, a), ReadByte(mem, a + 1)));
    assert s[0 := 0] == s;
  }

  /** lwl and lwr at A+3 and A read that word back when base and data registers differ. */
  lemma LoadUnaligned(i: Word, j: Word, r: Registers, mem: Memory)
    requires Op(i) == 34 && Op(j) == 38 && R1(i) == R1(j) && R2(i) == R2(j)
    requires Simm(i) == Simm(j) + 3 && r[0] == 0 && R2(i) != 0 && R2(i) != R1(i)
    ensures
      var (r1, m1) := Access(i, r, mem);
      var (r2, m2) := Access(j, r1, m1);
      m2 == mem && r2 == r[R2(j) := ReadWord(mem, r[R1(j)] as int + Simm(j))]
  {
    hide Or, And, Shr;
    var a, t: Word := r[R1(j)] as int + Simm(j), r[R2(j)];
    var x := LoadLeft(t, ReadByte(mem, a + 3), ReadByte(mem, a + 2));
    LwlStep(i, r, mem);
    LwrStep(j, Set(r, R2(i), x), mem);
    LoadValue(r, mem, a, R2(j));
  }

  /** Storing with swl/swr and loading with lwl/lwr round-trips any word at any address. */
  lemma UnalignedRoundTrip(si: Word, sj: Word, li: Word, lj: Word, r: Registers, mem: Memory)
    requires Op(si) == 42 && Op(sj) == 46 && R1(si) == R1(sj) && R2(si) == R2(sj)
    requires Op(li) == 34 && Op(lj) == 38 && R1(li) == R1(lj) == R1(si) && R2(li) == R2(lj)
    requires Simm(si) == Simm(sj) + 3 && Simm(li) == Simm(lj) + 3 && Simm(lj) == Simm(sj)
    requires r[0] == 0 && R2(li) != 0 && R2(li) != R1(li)
    ensures
      var (r1, m1) := Access(si, r, mem);
      var (r2, m2) := Access(sj, r1, m1);
      var (r3, m3) := Access(li, r2, m2);
      var (r4, m4) := Access(lj, r3, m3);
      r4 == r[R2(li) := r[R2(si)]]
  {
    hide Or, And, Shr, Access, SameElsewhere, ReadWord;
    var (r1, m1) := Access(si, r, mem);
    var (r2, m2) := Access(sj, r1, m1);
    StoreUnaligned(si, sj, r, mem);
    LoadUnaligned(li, lj, r2, m2);
  }
}
