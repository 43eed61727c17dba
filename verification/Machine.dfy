/**
 The machine the recognisers reason about: exact semantics for the opcodes they match, and for
 every other word only the frame `_instruction_writes_gpr` admits. Branches have delay slots.
 */
module Machine {
  import opened Prelude
  import opened BitWords
  import opened Mips

  /** A processor between two instructions: the next one, the one after it, registers, and the word at each aligned address. */
  datatype Cpu = Cpu(pc: int, npc: int, regs: seq<Word>, mem: int -> Word)

  predicate IsCpu(c: Cpu) {
    |c.regs| == 32 && c.regs[0] == 0 && c.pc % 4 == 0 && c.npc % 4 == 0
  }

  function Wrap(x: int): Word { x % 0x1_0000_0000 }

  /** Bitwise or on non-negative integers. */
  function Or(x: nat, y: nat): nat
    decreases x + y
  {
    if x == 0 && y == 0 then 0
    else (if x % 2 == 1 || y % 2 == 1 then 1 else 0) + 2 * Or(x / 2, y / 2)
  }

  lemma {:induction false} OrZero(x: nat)
    ensures Or(x, 0) == x
    decreases x
  {
    if x > 0 {
      OrZero(x / 2);
    }
  }

  lemma {:induction false} OrBelow(x: nat, y: nat, n: nat)
    requires x < Pow2(n) && y < Pow2(n)
    ensures Or(x, y) < Pow2(n)
    decreases n
  {
    if n > 0 {
      OrBelow(x / 2, y / 2, n - 1);
    }
  }

  /** Disjoint halves: or-ing in low bits is adding them. */
  lemma {:induction false} OrOfHalves(high: nat, low: nat, n: nat)
    requires low < Pow2(n)
    ensures Or(high * Pow2(n), low) == high * Pow2(n) + low
    decreases n
  {
    if n == 0 {
      OrZero(high);
    } else {
      var x := high * Pow2(n);
      ShiftHalf(high, n);
      OrOfHalves(high, low / 2, n - 1);
    }
  }

  lemma ShiftHalf(high: nat, n: nat)
    requires n > 0
    ensures high * Pow2(n) % 2 == 0 && high * Pow2(n) / 2 == high * Pow2(n - 1)
  {
    assert high * Pow2(n) == 2 * (high * Pow2(n - 1));
  }

  function OrWords(x: Word, y: Word): Word {
    Pow2Values();
    OrBelow(x, y, 32);
    Or(x, y)
  }

  /** Or-ing sixteen bits into an upper immediate puts them behind it. */
  lemma OrUpper(high: nat, low: nat)
    requires high < 0x1_0000 && low < 0x1_0000
    ensures OrWords(high * 0x1_0000, low) == high * 0x1_0000 + low
  {
    assert Pow2(4) == 16 && Pow2(8) == 0x100 && Pow2(12) == 0x1000 && Pow2(16) == 0x1_0000;
    OrOfHalves(high, low, 16);
  }

  predicate IsLui(i: Insn) { i.op == 0x0F }
  predicate IsAddiu(i: Insn) { i.op == 9 }
  predicate IsOri(i: Insn) { i.op == 0x0D }
  predicate IsSltiu(i: Insn) { i.op == 0x0B }
  predicate IsSll(i: Insn) { i.op == 0 && i.fn == 0 }
  predicate IsAddu(i: Insn) { i.op == 0 && i.fn == 0x21 }
  predicate IsLw(i: Insn) { i.op == 0x23 }
  predicate IsBeq(i: Insn) { i.op == 4 }

  /** One of the opcodes with exact semantics. */
  predicate Matched(i: Insn) {
    IsLui(i) || IsAddiu(i) || IsOri(i) || IsSltiu(i) || IsSll(i) || IsAddu(i) || IsLw(i)
  }

  function Address(i: Insn, c: Cpu): Word
    requires IsCpu(c)
  {
    Wrap((c.regs[i.rs] as int) + Signed(i))
  }

  /** Destination and value of the opcodes the recognisers match; an unaligned load is not one of them. */
  function Effect(i: Insn, c: Cpu): Option<(Reg, Word)>
    requires IsCpu(c)
  {
    if IsLui(i) then Some((i.rt, i.imm * 0x1_0000))
    else if IsAddiu(i) then Some((i.rt, Address(i, c)))
    else if IsOri(i) then Some((i.rt, OrWords(c.regs[i.rs], i.imm)))
    else if IsSltiu(i) then Some((i.rt, if c.regs[i.rs] < Wrap(Signed(i)) then 1 else 0))
    else if IsSll(i) then Some((i.rd, Wrap((c.regs[i.rt] as int) * Pow2(i.sa))))
    else if IsAddu(i) then Some((i.rd, Wrap((c.regs[i.rs] as int) + c.regs[i.rt])))
    else if IsLw(i) && Address(i, c) % 4 == 0 then Some((i.rt, c.mem(Address(i, c))))
    else None
  }

  function Set(regs: seq<Word>, reg: Reg, value: Word): seq<Word>
    requires |regs| == 32
  {
    if reg == 0 then regs else regs[reg := value]
  }

  /** Registers and memory after one instruction: exact for a matched opcode, framed for any other. */
  ghost predicate Computes(i: Insn, c: Cpu, d: Cpu)
    requires IsCpu(c) && IsCpu(d)
  {
    match Effect(i, c)
    case Some((reg, value)) => d.regs == Set(c.regs, reg, value) && d.mem == c.mem
    case None => forall r :: 0 <= r < 32 && !WritesGpr(i, r) ==> d.regs[r] == c.regs[r]
  }

  /** A conditional branch may go either way, except that `beq` decides by its two registers. */
  predicate MayTake(i: Insn, c: Cpu)
    requires IsCpu(c)
  {
    IsBeq(i) ==> c.regs[i.rs] == c.regs[i.rt]
  }

  predicate MayPass(i: Insn, c: Cpu)
    requires IsCpu(c)
  {
    IsBeq(i) ==> c.regs[i.rs] != c.regs[i.rt]
  }

  /** The delay slot runs, then `target`. */
  predicate Delays(c: Cpu, d: Cpu, target: int) { d.pc == c.npc && d.npc == target }

  /** The next two instructions after this one; a register jump to an unaligned address may do anything. */
  predicate Sequences(i: Insn, c: Cpu, d: Cpu)
    requires IsCpu(c)
  {
    match i.flow
    case Normal => Delays(c, d, c.npc + 4)
    case Branch(t) =>
      || (MayTake(i, c) && Delays(c, d, t))
      || (MayPass(i, c) && Delays(c, d, c.npc + 4))
      || (0x14 <= i.op <= 0x17 && d.pc == c.npc + 4 && d.npc == c.npc + 8)
    case BranchNever => Delays(c, d, c.npc + 4)
    case BranchNeverLikely => d.pc == c.npc + 4 && d.npc == c.npc + 8
    case Jump(t) => Delays(c, d, t)
    case Call(t) => Delays(c, d, t)
    case _ => d.pc == c.npc && (c.regs[i.rs] % 4 == 0 ==> d.npc == c.regs[i.rs])
  }

  /** One machine step. Code outside the listing may do anything; a transfer never sits in a delay slot. */
  ghost predicate Step(p: Program, c: Cpu, d: Cpu) {
    && IsCpu(c) && IsCpu(d)
    && match p(c.pc)
       case None => d.pc == c.npc
       case Some(i) => Sequences(i, c, d) && Computes(i, c, d) && (!i.flow.Normal? ==> c.npc == c.pc + 4)
  }

  ghost predicate StepAt(p: Program, run: seq<Cpu>, i: int)
    requires 0 <= i < |run| - 1
  {
    Step(p, run[i], run[i+1])
  }

  ghost predicate IsRun(p: Program, run: seq<Cpu>) {
    forall i :: 0 <= i < |run| - 1 ==> StepAt(p, run, i)
  }

  lemma RunPrefix(p: Program, run: seq<Cpu>)
    requires IsRun(p, run) && |run| > 0
    ensures IsRun(p, run[..|run|-1])
  {
    var init := run[..|run|-1];
    forall i | 0 <= i < |init| - 1 ensures StepAt(p, init, i) {
      assert StepAt(p, run, i);
    }
  }

  /** The matched opcodes stay within the frame: no instruction changes a register it is not said to write. */
  lemma FrameRule(i: Insn, c: Cpu, d: Cpu, reg: int)
    requires IsCpu(c) && IsCpu(d) && Computes(i, c, d)
    requires 0 <= reg < 32 && !WritesGpr(i, reg)
    ensures d.regs[reg] == c.regs[reg]
  {
    if reg != 0 {
      match Effect(i, c)
      case Some(e) => assert e.0 == reg ==> WritesGpr(i, reg);
      case None =>
    }
  }
}
