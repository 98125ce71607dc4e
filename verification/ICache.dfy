/** The software instruction cache and emulator loop of src/libicache/icachec.c.

    `Machine` is the emulator without a cache: every fetch reads the executable.  `Emulator`
    is the program itself, with its 4-way set-associative cache, the sequential fast path
    (`cachedCnt`, `cachedInstr`) that skips the lookup, delay slots, nullified branches and
    system calls that skip instructions.  Every step of the emulator is a step of the machine.
 */
module ICache {
  import opened Words
  import opened Mips

  const WAYS := 4
  const SETS := 64
  const WORDS_PER_LINE := 8
  const LINE_BYTES := 32
  const INVALID := 0xffff_ffff

  // ---- the machine without a cache ----

  /** The text segment as the linker script places it, and its words in the executable file. */
  datatype Program = Program(textBegin: nat, textEnd: nat, exe: seq<Word>) {
    predicate Valid() {
      && textBegin % LINE_BYTES == 0 && textEnd % LINE_BYTES == 0
      && textBegin <= textEnd <= 0x1_0000_0000
      && 4 * |exe| == textEnd - textBegin
    }

    predicate InText(addr: nat) { textBegin <= addr < textEnd }

    /** The instruction at an address: from the executable inside the text, from RAM outside. */
    function WordAt(mem: Memory, addr: nat): Word
      requires Valid()
    {
      if InText(addr) then exe[(addr - textBegin) / 4] else ReadWord(mem, addr)
    }
  }

  /** `slot` holds the branch target while the instruction in the delay slot is next. */
  datatype Machine = Machine(regs: Registers, mem: Memory, pc: Word, slot: Slot)

  datatype Slot = NoSlot | InSlot(target: Word)

  datatype Outcome = Running(m: Machine) | Stopped(reason: Reason, m: Machine)

  /** What the loop does once an instruction has taken effect at `pc`. */
  function Advance(pc: Word, slot: Slot, e: Effect): Outcome
  {
    var r: Registers := e.regs[0 := 0];
    match e.control
    case Stop(reason) => Stopped(reason, Machine(e.regs, e.mem, pc, slot))
    case Branch(target) => Running(Machine(r, e.mem, U(pc + 4), InSlot(target)))
    case Next => Running(Leave(r, e.mem, slot, U(pc + 4)))
    case Nullify => Running(Leave(r, e.mem, slot, U(pc + 8)))
    case Skip(n) => Running(Leave(r, e.mem, slot, U(pc + 4 + 4 * n)))
  }

  function Leave(r: Registers, mem: Memory, slot: Slot, next: Word): Machine
  {
    if slot.InSlot? then Machine(r, mem, slot.target, NoSlot) else Machine(r, mem, next, NoSlot)
  }

  function MachineStep(p: Program, m: Machine, sys: SysResult): Outcome
    requires p.Valid()
  {
    Advance(m.pc, m.slot, Exec(p.WordAt(m.mem, m.pc), m.pc, m.regs, m.mem, sys))
  }

  /** Run until the inputs are used up or the program stops. */
  function MachineRun(p: Program, m: Machine, inputs: seq<Input>): Outcome
    requires p.Valid()
    decreases |inputs|
  {
    hide MachineStep;
    if inputs == [] then Running(m)
    else
      match MachineStep(p, m, inputs[0].sys)
      case Running(m') => MachineRun(p, m', inputs[1..])
      case Stopped(reason, m') => Stopped(reason, m')
  }

  /** The environment of one step: what a system call would do, and whether a file read works. */
  datatype Input = Input(sys: SysResult, readable: bool)

  // ---- the emulator ----

  /** `CachedInstr`: into a cache line, or into RAM. */
  datatype Pointer = Line(set_: int, way: int, word: int) | Ram(addr: int)

  function Moved(p: Pointer, n: int): Pointer
  {
    match p
    case Line(s, w, k) => Line(s, w, k + n)
    case Ram(a) => Ram(a + 4 * n)
  }

  datatype Fetched = Instr(word: Word) | Unreadable

  datatype Status = Ok | Halted(reason: Reason) | ReadError

  /** n words further on in the same line. */
  lemma NextInLine(a: int, n: nat)
    requires a % LINE_BYTES / 4 + n < WORDS_PER_LINE
    ensures (a + 4 * n) / LINE_BYTES == a / LINE_BYTES && (a + 4 * n) % LINE_BYTES / 4 == a % LINE_BYTES / 4 + n
  {
    var q, r := a / LINE_BYTES, a % LINE_BYTES;
    DivModUnique(a + 4 * n, LINE_BYTES, q, r + 4 * n);
    DivModUnique(r + 4 * n, 4, r / 4 + n, r % 4);
  }

  /** The instruction at an address of a line of the text, in terms of the line. */
  lemma WordOfLine(p: Program, mem: Memory, line: nat, addr: nat)
    requires p.Valid() && addr / LINE_BYTES == line
    requires p.textBegin <= line * LINE_BYTES && line * LINE_BYTES + LINE_BYTES <= p.textEnd
    ensures p.InText(addr) && addr % LINE_BYTES / 4 < WORDS_PER_LINE
    ensures
      var k := (line * LINE_BYTES - p.textBegin) / 4 + addr % LINE_BYTES / 4;
      k < |p.exe| && p.WordAt(mem, addr) == p.exe[k]
  {
    var r, b := addr % LINE_BYTES, p.textBegin / LINE_BYTES;
    assert addr == line * LINE_BYTES + r && p.textBegin == b * LINE_BYTES;
    DivModUnique(addr - p.textBegin, 4, 8 * (line - b) + r / 4, r % 4);
    DivModUnique(line * LINE_BYTES - p.textBegin, 4, 8 * (line - b), 0);
  }

  class Emulator {
    const program: Program
    var regs: Registers
    var mem: Memory
    var pc: Word
    var slot: Slot              // delaySlot and postDelaySlotPc
    const cache: array3<Word>
    const tags: array2<nat>
    var cachedCnt: int
    var cachedInstr: Pointer
    var victim: nat             // the static `w` of FetchProgramWord

    ghost predicate Shape()
    {
      && program.Valid()
      && cache.Length0 == SETS && cache.Length1 == WAYS && cache.Length2 == WORDS_PER_LINE
      && tags.Length0 == SETS && tags.Length1 == WAYS
    }

    function LineNumber(tag: nat, s: nat): nat { tag * SETS + s }

    /** A valid entry holds the line of the text segment that its tag and set name. */
    ghost predicate LineValid(s: nat, way: nat)
      requires Shape() && s < SETS && way < WAYS
      reads cache, tags
    {
      tags[s, way] != INVALID ==>
        var a := LineNumber(tags[s, way], s) * LINE_BYTES;
        && program.textBegin <= a && a + LINE_BYTES <= program.textEnd
        && forall k {:trigger cache[s, way, k]} | 0 <= k < WORDS_PER_LINE ::
             cache[s, way, k] == program.exe[(a - program.textBegin) / 4 + k]
    }

    /** All lines are valid and no tag occurs twice in a set. */
    ghost predicate CacheValid()
      requires Shape()
      reads cache, tags
    {
      && (forall s, way | 0 <= s < SETS && 0 <= way < WAYS :: LineValid(s, way))
      && (forall s, v, w {:trigger tags[s, v], tags[s, w]} | 0 <= s < SETS && 0 <= v < w < WAYS ::
            tags[s, v] == tags[s, w] ==> tags[s, v] == INVALID)
    }

    /** `cachedInstr` is at the word of `addr`, with `cachedCnt` more words to its right. */
    ghost predicate PointsAt(addr: int)
      requires Shape()
      reads this`cachedInstr, this`cachedCnt, tags
    {
      && cachedInstr.Line?
      && 0 <= cachedInstr.set_ < SETS && 0 <= cachedInstr.way < WAYS
      && tags[cachedInstr.set_, cachedInstr.way] != INVALID
      && addr / LINE_BYTES == LineNumber(tags[cachedInstr.set_, cachedInstr.way], cachedInstr.set_)
      && addr % LINE_BYTES / 4 == cachedInstr.word
      && cachedInstr.word + cachedCnt == WORDS_PER_LINE - 1
    }

    /** A positive count promises that the next word of the line is the instruction at pc. */
    ghost predicate Valid()
      reads this, cache, tags
    {
      && Shape()
      && CacheValid()
      && victim < WAYS
      && (cachedCnt > 0 ==> PointsAt(pc - 4))
    }

    ghost function Abstract(): Machine
      reads this
    {
      Machine(regs, mem, pc, slot)
    }

    constructor (p: Program, r: Registers, m: Memory, entry: Word)
      requires p.Valid()
      ensures Valid() && fresh(cache) && fresh(tags)
      ensures program == p && Abstract() == Machine(r, m, entry, NoSlot)
    {
      program, regs, mem, pc, slot := p, r, m, entry, NoSlot;
      cache := new Word[SETS, WAYS, WORDS_PER_LINE]((_, _, _) => 0);
      tags := new nat[SETS, WAYS]((_, _) => INVALID);
      cachedCnt, cachedInstr := 0, Line(0, 0, 0);
      victim := WAYS - 1;
    }

    /** `FetchProgramWord(pc)` */
    method Fetch(readable: bool) returns (f: Fetched)
      requires Valid()
      modifies this`cachedCnt, this`cachedInstr, this`victim, cache, tags
      ensures Shape() && CacheValid() && victim < WAYS
      ensures f.Instr? ==> f.word == program.WordAt(mem, pc)
      ensures f.Instr? ==> cachedCnt >= 0 && (cachedCnt > 0 ==> PointsAt(pc))
      ensures f.Unreadable? ==> !readable && cachedCnt <= 0
    {
      if cachedCnt > 0 {
        SequentialWord();
        cachedCnt := cachedCnt - 1;
        cachedInstr := Moved(cachedInstr, 1);
        return Instr(cache[cachedInstr.set_, cachedInstr.way, cachedInstr.word]);
      }
      if pc < program.textBegin || pc >= program.textEnd {
        cachedCnt := 0;
        cachedInstr := Ram(pc);
        return Instr(ReadWord(mem, pc));
      }
      var ofs := pc % LINE_BYTES / 4;
      var s := pc / LINE_BYTES % SETS;
      var tag := pc / LINE_BYTES / SETS;
      var way := Lookup(s, tag);
      if way == WAYS {
        way := Victim(s);
        if !readable {
          return Unreadable;
        }
        Refill(s, way, tag);
      }
      LineWord(s, way, ofs);
      cachedCnt := WORDS_PER_LINE - 1 - ofs;
      cachedInstr := Line(s, way, ofs);
      return Instr(cache[s, way, ofs]);
    }

    /** The word after `cachedInstr` is the instruction at pc. */
    lemma SequentialWord()
      requires Valid() && cachedCnt > 0
      ensures
        var c := cachedInstr;
        && c.word + 1 < WORDS_PER_LINE && 0 <= c.word
        && program.InText(pc)
        && cache[c.set_, c.way, c.word + 1] == program.WordAt(mem, pc)
        && pc / LINE_BYTES == (pc - 4) / LINE_BYTES && pc % LINE_BYTES / 4 == c.word + 1
    {
      hide Program.WordAt;
      assert LineValid(cachedInstr.set_, cachedInstr.way);
      NextInLine(pc - 4, 1);
      WordOfLine(program, mem, LineNumber(tags[cachedInstr.set_, cachedInstr.way], cachedInstr.set_), pc);
    }

    /** A hit at the word of pc delivers the instruction at pc. */
    lemma LineWord(s: nat, way: nat, ofs: nat)
      requires Shape() && CacheValid() && program.InText(pc) && way < WAYS
      requires s == pc / LINE_BYTES % SETS && ofs == pc % LINE_BYTES / 4
      requires tags[s, way] == pc / LINE_BYTES / SETS
      ensures ofs < WORDS_PER_LINE && cache[s, way, ofs] == program.WordAt(mem, pc)
    {
      hide Program.WordAt;
      LineInText(tags[s, way], s);
      assert LineValid(s, way);
      WordOfLine(program, mem, pc / LINE_BYTES, pc);
    }

    method Lookup(s: nat, tag: nat) returns (way: nat)
      requires Shape() && s < SETS
      ensures way <= WAYS
      ensures way < WAYS ==> tags[s, way] == tag
      ensures way == WAYS ==> forall w | 0 <= w < WAYS :: tags[s, w] != tag
    {
      way := 0;
      while way < WAYS
        invariant way <= WAYS && forall w | 0 <= w < way :: tags[s, w] != tag
      {
        if tags[s, way] == tag { return; }
        way := way + 1;
      }
    }

    /** The entry to refill: an invalid one if there is any, else the next in turn. */
    method Victim(s: nat) returns (way: nat)
      requires Shape() && s < SETS && victim < WAYS
      modifies this`victim
      ensures way < WAYS && victim < WAYS
      ensures (exists w | 0 <= w < WAYS :: tags[s, w] >= 0x8000_0000) ==>
                tags[s, way] >= 0x8000_0000 && victim == old(victim)
      ensures (forall w | 0 <= w < WAYS :: tags[s, w] < 0x8000_0000) ==>
                way == victim == (old(victim) + 1) % WAYS
    {
      way := 0;
      while way < WAYS
        invariant way <= WAYS && forall w | 0 <= w < way :: tags[s, w] < 0x8000_0000
      {
        if tags[s, way] >= 0x8000_0000 { return; }
        way := way + 1;
      }
      victim := (victim + 1) % WAYS;
      way := victim;
    }

    /** Read the line of pc from the executable into one entry. */
    method Refill(s: nat, way: nat, tag: nat)
      requires Shape() && CacheValid() && program.InText(pc) && way < WAYS
      requires s == pc / LINE_BYTES % SETS && tag == pc / LINE_BYTES / SETS
      requires forall w | 0 <= w < WAYS :: tags[s, w] != tag
      modifies cache, tags
      ensures CacheValid()
      ensures tags[s, way] == tag
      ensures forall t, w | 0 <= t < SETS && 0 <= w < WAYS && !(t == s && w == way) ::
                tags[t, w] == old(tags[t, w])
      ensures forall t, w, k | 0 <= t < SETS && 0 <= w < WAYS && 0 <= k < WORDS_PER_LINE && !(t == s && w == way) ::
                cache[t, w, k] == old(cache[t, w, k])
    {
      var base := (pc / LINE_BYTES * LINE_BYTES - program.textBegin) / 4;
      LineInText(tag, s);
      forall k | 0 <= k < WORDS_PER_LINE {
        cache[s, way, k] := program.exe[base + k];
      }
      tags[s, way] := tag;
      forall t, w | 0 <= t < SETS && 0 <= w < WAYS ensures LineValid(t, w) {
        if !(t == s && w == way) { assert old(LineValid(t, w)); }
      }
    }

    lemma LineInText(tag: nat, s: nat)
      requires program.Valid() && program.InText(pc)
      requires s == pc / LINE_BYTES % SETS && tag == pc / LINE_BYTES / SETS
      ensures tag != INVALID && LineNumber(tag, s) == pc / LINE_BYTES
      ensures
        var a := LineNumber(tag, s) * LINE_BYTES;
        program.textBegin <= a && a + LINE_BYTES <= program.textEnd
    {
    }

    /** One turn of the loop in `Emulate`. */
    method Step(input: Input) returns (status: Status)
      requires Valid()
      modifies this, cache, tags
      ensures Shape() && CacheValid()
      ensures status.Ok? ==> Valid()
      ensures status.ReadError? ==> !input.readable && Abstract() == old(Abstract())
      ensures status.Ok? ==> MachineStep(program, old(Abstract()), input.sys) == Running(Abstract())
      ensures status.Halted? ==>
        MachineStep(program, old(Abstract()), input.sys) == Stopped(status.reason, Abstract())
    {
      hide Exec;
      var f := Fetch(input.readable);
      if f.Unreadable? {
        return ReadError;
      }
      status := Retire(Exec(f.word, pc, regs, mem, input.sys));
    }

    /** The next `n` words of the line are the next `n` instructions. */
    lemma SameLine(n: nat)
      requires Shape() && CacheValid() && PointsAt(pc) && n < cachedCnt
      ensures U(pc as int + 4 + 4 * n) - 4 == pc as int + 4 * n
      ensures (pc as int + 4 * n) / LINE_BYTES == pc as int / LINE_BYTES
      ensures (pc as int + 4 * n) % LINE_BYTES / 4 == cachedInstr.word + n
    {
      assert LineValid(cachedInstr.set_, cachedInstr.way);
      NextInLine(pc, n);
      WordOfLine(program, mem, LineNumber(tags[cachedInstr.set_, cachedInstr.way], cachedInstr.set_), pc as int + 4 * n);
    }

    /** Passing over n words: the pointer keeps up with the pc, as far as the line goes. */
    method PassOver(n: nat)
      requires Shape() && CacheValid() && (cachedCnt > 0 ==> PointsAt(pc))
      modifies this`cachedCnt, this`cachedInstr
      ensures cachedCnt == old(cachedCnt) - n && (cachedCnt > 0 ==> PointsAt(U(pc + 4 + 4 * n) - 4))
    {
      hide CacheValid, U;
      if cachedCnt > n { SameLine(n); }
      cachedCnt, cachedInstr := cachedCnt - n, Moved(cachedInstr, n);
    }

    /** Let an instruction take effect and find the next pc. */
    method Retire(e: Effect) returns (status: Status)
      requires Shape() && CacheValid() && victim < WAYS
      requires cachedCnt >= 0 && (cachedCnt > 0 ==> PointsAt(pc))
      modifies this
      ensures Shape() && CacheValid()
      ensures status.Ok? ==> Valid() && Advance(old(pc), old(slot), e) == Running(Abstract())
      ensures status.Halted? ==> Advance(old(pc), old(slot), e) == Stopped(status.reason, Abstract())
      ensures !status.ReadError?
    {
      hide CacheValid, U, Emulator.PointsAt;
      var next := U(pc + 4);
      var nextPc := next;
      var taken := false;
      if cachedCnt > 0 { SameLine(0); }
      match e.control {
        case Stop(reason) =>
          regs, mem := e.regs, e.mem;
          return Halted(reason);
        case Next =>
        case Branch(target) =>
          nextPc, taken := target, true;
        case Nullify =>
          PassOver(1);
          nextPc := U(pc + 8);
        case Skip(n) =>
          PassOver(n);
          nextPc := U(pc + 4 + 4 * n);
      }
      regs, mem := e.regs[0 := 0], e.mem;
      if taken {
        slot := InSlot(nextPc);
        pc := next;
      } else if slot.InSlot? {
        pc := slot.target;
        slot := NoSlot;
        cachedCnt := 0;
      } else {
        pc := nextPc;
      }
      status := Ok;
    }

    /** `Emulate` simulates the machine without a cache, over every run. */
    method Emulate(inputs: seq<Input>) returns (status: Status)
      requires Valid()
      modifies this, cache, tags
      ensures status.Ok? ==> Valid()
      ensures status.Ok? ==> MachineRun(program, old(Abstract()), inputs) == Running(Abstract())
      ensures status.Halted? ==>
        MachineRun(program, old(Abstract()), inputs) == Stopped(status.reason, Abstract())
      ensures status.ReadError? ==> exists n | 0 <= n < |inputs| ::
        !inputs[n].readable && MachineRun(program, old(Abstract()), inputs[..n]) == Running(Abstract())
    {
      hide MachineStep;
      var i := 0;
      while i < |inputs|
        invariant 0 <= i <= |inputs| && Valid()
        invariant MachineRun(program, old(Abstract()), inputs[..i]) == Running(Abstract())
      {
        status := Step(inputs[i]);
        RunStep(program, old(Abstract()), inputs, i);
        if status != Ok { return; }
        i := i + 1;
      }
      assert inputs[..i] == inputs;
      status := Ok;
    }
  }

  /** One more input is one more step; a stopped run ignores further inputs. */
  lemma {:induction false} RunStep(p: Program, m: Machine, inputs: seq<Input>, i: nat)
    requires p.Valid() && i < |inputs| && MachineRun(p, m, inputs[..i]).Running?
    ensures
      var m' := MachineRun(p, m, inputs[..i]).m;
      && MachineRun(p, m, inputs[..i + 1]) == MachineStep(p, m', inputs[i].sys)
      && (MachineStep(p, m', inputs[i].sys).Stopped? ==>
            MachineRun(p, m, inputs) == MachineStep(p, m', inputs[i].sys))
    decreases i
  {
    hide MachineStep;
    assert inputs[..i + 1][1..] == inputs[1..][..i];
    if i > 0 {
      assert inputs[..i][1..] == inputs[1..][..i - 1];
      RunStep(p, MachineStep(p, m, inputs[0].sys).m, inputs[1..], i - 1);
    }
  }
}
